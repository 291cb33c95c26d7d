/** The hand-written UTC calendar of the session log (`timestamp` in logging.rs):
    civil-from-days arithmetic, proved against the Gregorian calendar and against
    the "Seconds Since the Epoch" formula of POSIX.1-2017 (XBD section 4.16). */
module Calendar {

  datatype Date = Date(year: int, month: int, day: int)
  datatype Moment = Moment(date: Date, hour: int, minute: int, second: int)

  // ---- The reference: the Gregorian calendar and the POSIX formula. ----

  predicate Leap(y: int) {
    y % 4 == 0 && (y % 100 != 0 || y % 400 == 0)
  }

  function DaysInMonth(y: int, m: int): int {
    if m == 2 then (if Leap(y) then 29 else 28)
    else if m == 4 || m == 6 || m == 9 || m == 11 then 30
    else 31
  }

  predicate ValidDate(d: Date) {
    1 <= d.month <= 12 && 1 <= d.day <= DaysInMonth(d.year, d.month)
  }

  predicate ValidMoment(t: Moment) {
    ValidDate(t.date) && 0 <= t.hour < 24 && 0 <= t.minute < 60 && 0 <= t.second < 60
  }

  /** The calendar day after `d`. */
  function NextDay(d: Date): Date {
    if d.day < DaysInMonth(d.year, d.month) then d.(day := d.day + 1)
    else if d.month < 12 then Date(d.year, d.month + 1, 1)
    else Date(d.year + 1, 1, 1)
  }

  /** Days of year `y` before month `m`. */
  function DaysBefore(y: int, m: nat): int {
    if m <= 1 then 0 else DaysBefore(y, m - 1) + DaysInMonth(y, m - 1)
  }

  /** The days part of the POSIX formula, with tm_year = year - 1900. */
  function PosixDays(d: Date): int
    requires ValidDate(d)
  {
    DaysBefore(d.year, d.month) + d.day - 1
    + (d.year - 1970) * 365
    + (d.year - 1969) / 4 - (d.year - 1901) / 100 + (d.year - 1601) / 400
  }

  function PosixSeconds(t: Moment): int
    requires ValidMoment(t)
  {
    t.second + t.minute * 60 + t.hour * 3600 + PosixDays(t.date) * 86400
  }

  // ---- The program's own arithmetic. ----

  function CivilFromDays(days: int): Date {
    var z := days + 719468;
    var era := z / 146097;
    var doe := z % 146097;
    var yoe := (doe - doe / 1460 + doe / 36524 - doe / 146096) / 365;
    var doy := doe - (365 * yoe + yoe / 4 - yoe / 100);
    var mp := (5 * doy + 2) / 153;
    var d := doy - (153 * mp + 2) / 5 + 1;
    var month := if mp < 10 then mp + 3 else mp - 9;
    var y := yoe + era * 400 + (if month <= 2 then 1 else 0);
    Date(y, month, d)
  }

  /** The broken-down time of a clock reading; a clock before the epoch reads as 0. */
  function FromClock(clock: int): Moment {
    var secs := if clock < 0 then 0 else clock;
    Moment(CivilFromDays(secs / 86400), secs / 3600 % 24, secs / 60 % 60, secs % 60)
  }

  // ---- Proofs. ----

  /** Leap days in the years 1..n of the proleptic calendar. */
  function Leaps(n: int): int { n / 4 - n / 100 + n / 400 }

  lemma LeapStep(y: int)
    ensures Leaps(y) == Leaps(y - 1) + if Leap(y) then 1 else 0
  {
    DivStep(y, 4);
    DivStep(y, 100);
    DivStep(y, 400);
    Divisors(y);
    LeapSum(y / 4, (y - 1) / 4, y % 4 == 0, y / 100, (y - 1) / 100, y % 100 == 0, y / 400, (y - 1) / 400, y % 400 == 0);
  }

  lemma Divisors(y: int)
    ensures (y % 400 == 0 ==> y % 100 == 0) && (y % 100 == 0 ==> y % 4 == 0)
  {}

  lemma LeapSum(q: int, q': int, d: bool, c: int, c': int, e: bool, g: int, g': int, f: bool)
    requires q == q' + (if d then 1 else 0) && c == c' + (if e then 1 else 0) && g == g' + (if f then 1 else 0)
    requires (f ==> e) && (e ==> d)
    ensures q - c + g == q' - c' + g' + if d && (!e || f) then 1 else 0
  {}

  lemma DivStep(y: int, k: int)
    requires k == 4 || k == 100 || k == 400
    ensures y / k == (y - 1) / k + if y % k == 0 then 1 else 0
  {}

  /** The year of the era and the day of the year are what the calendar says:
      a 400-year era splits into centuries of 36524 days and leap cycles of 1461. */
  lemma YearOfEra(doe: int) returns (c: int, q: int, t: int, s: int)
    requires 0 <= doe < 146097
    ensures 0 <= c <= 3 && 0 <= q <= 24 && 0 <= t <= 3
    ensures 365 * t <= s < 365 * t + (if t == 3 then 366 else 365)
    ensures s == 1460 ==> q < 24 || c == 3
    ensures doe == 36524 * c + 1461 * q + s
    ensures (doe - doe / 1460 + doe / 36524 - doe / 146096) / 365 == 100 * c + 4 * q + t
  {
    c := if doe == 146096 then 3 else doe / 36524;
    var r := doe - 36524 * c;
    q := if r == 36524 then 24 else r / 1461;
    s := r - 1461 * q;
    t := if s == 1460 then 3 else s / 365;
    assert doe == 1460 * (25 * c + q) + (24 * c + q + s);
    var e := if 24 * c + q + s >= 1460 then 1 else 0;
    assert doe / 1460 == 25 * c + q + e;
    assert doe - doe / 1460 + doe / 36524 - doe / 146096 == 365 * (100 * c + 4 * q) + s - e;
    assert 365 * t <= s - e < 365 * t + 365;
  }

  /** Day of year of a March-based day `doy` that falls in month slot `mp`. */
  lemma MonthSlot(y: int, doy: int)
    requires 0 <= doy <= 365
    requires doy == 365 ==> Leap(y + 1)
    ensures var mp := (5 * doy + 2) / 153;
            var d := doy - (153 * mp + 2) / 5 + 1;
            var m := if mp < 10 then mp + 3 else mp - 9;
            var cy := if m <= 2 then y + 1 else y;
            && ValidDate(Date(cy, m, d))
            && DaysBefore(cy, m) + d - 1 == if m <= 2 then doy - 306 else doy + 59 + if Leap(cy) then 1 else 0
  {
    var mp := (5 * doy + 2) / 153;
    assert 0 <= mp <= 11;
    var m := if mp < 10 then mp + 3 else mp - 9;
    var cy := if m <= 2 then y + 1 else y;
    MonthOffsets(cy);
  }

  lemma MonthOffsets(y: int)
    ensures DaysBefore(y, 1) == 0 && DaysBefore(y, 2) == 31
    ensures var f := if Leap(y) then 60 else 59;
            && DaysBefore(y, 3) == f && DaysBefore(y, 4) == f + 31 && DaysBefore(y, 5) == f + 61
            && DaysBefore(y, 6) == f + 92 && DaysBefore(y, 7) == f + 122 && DaysBefore(y, 8) == f + 153
            && DaysBefore(y, 9) == f + 184 && DaysBefore(y, 10) == f + 214 && DaysBefore(y, 11) == f + 245
            && DaysBefore(y, 12) == f + 275 && DaysBefore(y, 13) == f + 306
  {
    assert DaysBefore(y, 4) == DaysBefore(y, 3) + 31;
    assert DaysBefore(y, 6) == DaysBefore(y, 5) + 31;
    assert DaysBefore(y, 8) == DaysBefore(y, 7) + 31;
    assert DaysBefore(y, 10) == DaysBefore(y, 9) + 30;
    assert DaysBefore(y, 12) == DaysBefore(y, 11) + 30;
  }

  /** POSIX day count of the years alone. */
  lemma YearDays(y: int)
    ensures (y - 1970) * 365 + (y - 1969) / 4 - (y - 1901) / 100 + (y - 1601) / 400
         == 365 * y + Leaps(y - 1) - 719527
  {
    assert (y - 1969) / 4 == (y - 1) / 4 - 492;
    assert (y - 1901) / 100 == (y - 1) / 100 - 19;
    assert (y - 1601) / 400 == (y - 1) / 400 - 4;
  }

  /** Day `doy` of the year that starts on 1 March of year `y`. */
  function MarchDate(y: int, doy: int): Date {
    var mp := (5 * doy + 2) / 153;
    var month := if mp < 10 then mp + 3 else mp - 9;
    Date(if month <= 2 then y + 1 else y, month, doy - (153 * mp + 2) / 5 + 1)
  }

  lemma MarchDatePosix(y: int, doy: int)
    requires 0 <= doy <= 365
    requires doy == 365 ==> Leap(y + 1)
    ensures ValidDate(MarchDate(y, doy))
    ensures PosixDays(MarchDate(y, doy)) == 365 * y + Leaps(y) + doy - 719468
  {
    MonthSlot(y, doy);
    var date := MarchDate(y, doy);
    YearDays(date.year);
    LeapStep(y);
  }

  /** The program's split of a day number: March-based year and day of that year. */
  lemma MarchSplit(z: int) returns (y: int, doy: int)
    ensures 0 <= doy <= 365
    ensures doy == 365 ==> Leap(y + 1)
    ensures z == 365 * y + Leaps(y) + doy
    ensures CivilFromDays(z - 719468) == MarchDate(y, doy)
  {
    hide CivilFromDays, MarchDate, Leap, Leaps;
    var era, doe := z / 146097, z % 146097;
    var c, q, t, s := YearOfEra(doe);
    var yoe := 100 * c + 4 * q + t;
    y, doy := yoe + era * 400, s - 365 * t;
    CenturyOf(c, q, t);
    LeapsOfEra(era, c, q, t);
    assert doy == doe - (365 * yoe + yoe / 4 - yoe / 100);
    CivilOfEra(z, yoe, doy);
    if doy == 365 {
      LeapClose(era, c, q);
    }
  }

  /** The program's date is the March-based one, once year of era and day of year are known. */
  lemma CivilOfEra(z: int, yoe: int, doy: int)
    requires var doe := z % 146097;
             yoe == (doe - doe / 1460 + doe / 36524 - doe / 146096) / 365 && doy == doe - (365 * yoe + yoe / 4 - yoe / 100)
    ensures CivilFromDays(z - 719468) == MarchDate(yoe + z / 146097 * 400, doy)
  {}

  lemma CenturyOf(c: int, q: int, t: int)
    requires 0 <= c <= 3 && 0 <= q <= 24 && 0 <= t <= 3
    ensures (100 * c + 4 * q + t) / 4 == 25 * c + q && (100 * c + 4 * q + t) / 100 == c
  {}

  /** The conversion is right on every day, before and after the epoch: it gives a
      valid Gregorian date whose POSIX day number is the day converted. */
  lemma CivilIsPosix(days: int)
    ensures ValidDate(CivilFromDays(days))
    ensures PosixDays(CivilFromDays(days)) == days
  {
    var y, doy := MarchSplit(days + 719468);
    MarchDatePosix(y, doy);
  }

  lemma LeapsOfEra(era: int, c: int, q: int, t: int)
    requires 0 <= c <= 3 && 0 <= q <= 24 && 0 <= t <= 3
    ensures Leaps(100 * c + 4 * q + t + era * 400) == 97 * era + 25 * c + q - c
  {
    var y := 100 * c + 4 * q + t + era * 400;
    assert y / 4 == 100 * era + 25 * c + q;
    assert y / 100 == 4 * era + c;
    assert y / 400 == era;
  }

  /** The fourth year of a cycle closes on a leap day unless the cycle closes a
      century that does not close the era. */
  lemma LeapClose(era: int, c: int, q: int)
    requires 0 <= c <= 3 && 0 <= q <= 24
    requires q < 24 || c == 3
    ensures Leap(100 * c + 4 * q + 3 + era * 400 + 1)
  {
    var y := 100 * c + 4 * (q + 1) + era * 400;
    assert y == 4 * (25 * c + q + 1 + 100 * era);
    if q < 24 {
      RemainderIs(y, 100, c + 4 * era, 4 * (q + 1));
    } else {
      assert y == 400 * (era + 1);
    }
  }

  lemma RemainderIs(y: int, k: int, a: int, r: int)
    requires k == 100 && y == k * a + r && 0 <= r < k
    ensures y % k == r
  {}

  /** POSIX day numbers are strictly increasing in calendar order. */
  predicate Before(a: Date, b: Date) {
    a.year < b.year || (a.year == b.year && (a.month < b.month || (a.month == b.month && a.day < b.day)))
  }

  lemma WithinYear(d: Date)
    requires ValidDate(d)
    ensures 0 <= DaysBefore(d.year, d.month) + d.day - 1 < if Leap(d.year) then 366 else 365
  {
    MonthOffsets(d.year);
  }

  lemma {:induction false} LeapsMonotone(a: int, b: int)
    requires a <= b
    ensures Leaps(a) <= Leaps(b)
    decreases b - a
  {
    if a < b { LeapsMonotone(a, b - 1); LeapStep(b); }
  }

  lemma PosixOfYear(d: Date)
    requires ValidDate(d)
    ensures PosixDays(d) == DaysBefore(d.year, d.month) + d.day - 1 + 365 * d.year + Leaps(d.year - 1) - 719527
  {
    YearDays(d.year);
  }

  lemma YearBaseMonotone(a: int, b: int)
    requires a < b
    ensures 365 * a + Leaps(a - 1) + (if Leap(a) then 366 else 365) <= 365 * b + Leaps(b - 1)
  {
    LeapStep(a);
    LeapsMonotone(a, b - 1);
  }

  lemma MonthMonotone(a: Date, b: Date)
    requires ValidDate(a) && ValidDate(b) && a.year == b.year && Before(a, b)
    ensures DaysBefore(a.year, a.month) + a.day < DaysBefore(b.year, b.month) + b.day
  {
    MonthOffsets(a.year);
  }

  lemma PosixDaysMonotone(a: Date, b: Date)
    requires ValidDate(a) && ValidDate(b) && Before(a, b)
    ensures PosixDays(a) < PosixDays(b)
  {
    hide PosixDays, DaysBefore, Leaps;
    PosixOfYear(a); PosixOfYear(b);
    if a.year < b.year {
      WithinYear(a); WithinYear(b);
      YearBaseMonotone(a.year, b.year);
    } else {
      MonthMonotone(a, b);
    }
  }

  /** Every valid date is what its own POSIX day number converts to. */
  lemma CivilOfPosix(d: Date)
    requires ValidDate(d)
    ensures CivilFromDays(PosixDays(d)) == d
  {
    var back := CivilFromDays(PosixDays(d));
    CivilIsPosix(PosixDays(d));
    if Before(d, back) { PosixDaysMonotone(d, back); }
    if Before(back, d) { PosixDaysMonotone(back, d); }
  }

  /** Later days give later dates, and the next day gives the next date. */
  lemma CivilOrder(a: int, b: int)
    ensures a < b <==> Before(CivilFromDays(a), CivilFromDays(b))
  {
    CivilIsPosix(a); CivilIsPosix(b);
    var da, db := CivilFromDays(a), CivilFromDays(b);
    if Before(da, db) { PosixDaysMonotone(da, db); }
    if Before(db, da) { PosixDaysMonotone(db, da); }
  }

  lemma NextDayCounts(d: Date)
    requires ValidDate(d)
    ensures ValidDate(NextDay(d)) && PosixDays(NextDay(d)) == PosixDays(d) + 1
  {
    hide PosixDays, Leap;
    PosixOfYear(d);
    PosixOfYear(NextDay(d));
    if d.month == 12 && d.day == 31 { YearTurns(d.year); }
  }

  lemma YearTurns(y: int)
    ensures DaysBefore(y, 12) + 31 + 365 * y + Leaps(y - 1) == DaysBefore(y + 1, 1) + 365 * (y + 1) + Leaps(y)
  {
    MonthOffsets(y);
    MonthOffsets(y + 1);
    LeapStep(y);
  }

  lemma CivilStep(days: int)
    ensures CivilFromDays(days + 1) == NextDay(CivilFromDays(days))
  {
    hide CivilFromDays, PosixDays, NextDay, ValidDate;
    var d := CivilFromDays(days);
    CivilIsPosix(days);
    NextDayCounts(d);
    CivilOfPosix(NextDay(d));
  }

  /** The whole conversion is exact on every non-negative second count ... */
  lemma ClockIsPosix(secs: int)
    ensures ValidMoment(FromClock(secs))
    ensures PosixSeconds(FromClock(secs)) == if secs < 0 then 0 else secs
  {
    hide CivilFromDays, PosixDays, ValidDate;
    var s := if secs < 0 then 0 else secs;
    CivilIsPosix(s / 86400);
    TimeOfDay(s);
  }

  lemma TimeOfDay(s: int)
    requires s >= 0
    ensures s == s / 86400 * 86400 + s / 3600 % 24 * 3600 + s / 60 % 60 * 60 + s % 60
  {
    assert s / 60 == s / 3600 * 60 + s / 60 % 60;
    assert s / 3600 == s / 86400 * 24 + s / 3600 % 24;
  }

  /** ... and onto: every valid moment from the epoch on is some reading's moment. */
  lemma ClockOfPosix(t: Moment)
    requires ValidMoment(t) && PosixSeconds(t) >= 0
    ensures FromClock(PosixSeconds(t)) == t
  {
    hide CivilFromDays, PosixDays, ValidDate;
    var s := PosixSeconds(t);
    SplitSeconds(PosixDays(t.date), t.hour, t.minute, t.second);
    CivilOfPosix(t.date);
  }

  lemma SplitSeconds(days: int, h: int, m: int, s: int)
    requires 0 <= h < 24 && 0 <= m < 60 && 0 <= s < 60
    ensures var secs := s + m * 60 + h * 3600 + days * 86400;
            secs / 86400 == days && secs / 3600 % 24 == h && secs / 60 % 60 == m && secs % 60 == s
  {
    var secs := s + m * 60 + h * 3600 + days * 86400;
    assert secs / 3600 == days * 24 + h;
    assert secs / 60 == (days * 24 + h) * 60 + m;
  }

  /** Order of moments: calendar order, then time of day. */
  predicate Earlier(a: Moment, b: Moment) {
    Before(a.date, b.date) ||
    (a.date == b.date &&
     (a.hour < b.hour || (a.hour == b.hour && (a.minute < b.minute || (a.minute == b.minute && a.second < b.second)))))
  }

  lemma ClockOrder(s1: int, s2: int)
    requires 0 <= s1 < s2
    ensures Earlier(FromClock(s1), FromClock(s2))
  {
    hide CivilFromDays, Before;
    CivilOrder(s1 / 86400, s2 / 86400);
    TimeOfDay(s1); TimeOfDay(s2);
  }

  /** The year has at most four digits exactly below the year 10000. */
  lemma YearRange(secs: int)
    requires secs >= 0
    ensures 1970 <= FromClock(secs).date.year
    ensures FromClock(secs).date.year <= 9999 <==> secs < 253402300800
  {
    var days := secs / 86400;
    var date := CivilFromDays(days);
    FirstAndLast();
    CivilOrder(days, 0);
    CivilOrder(2932896, days);
    CivilIsPosix(days);
  }

  /** Days 0 and 2932896 are 1970-01-01 and 9999-12-31. */
  lemma FirstAndLast()
    ensures CivilFromDays(0) == Date(1970, 1, 1)
    ensures CivilFromDays(2932896) == Date(9999, 12, 31)
  {
    EraOf(0, 4, 135080);
    CivilOfEra(719468, 369, 306);
    EraOf(2932896, 24, 146036);
    CivilOfEra(3652364, 399, 305);
    hide CivilFromDays;
  }

  lemma EraOf(days: int, era: int, doe: int)
    requires days + 719468 == era * 146097 + doe && 0 <= doe < 146097
    ensures (days + 719468) / 146097 == era && (days + 719468) % 146097 == doe
  {}
}
