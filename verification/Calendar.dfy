/** Civil dates as day numbers and epoch seconds, the way the scheduler, the challenge of
    the licence file and the clock compute them. */
module Calendar {
  const U32: int := 0x1_0000_0000

  datatype Date = Date(year: int, month: int, day: int)

  predicate Leap(y: int) {
    y % 4 == 0 && (y % 100 != 0 || y % 400 == 0)
  }

  function MonthLength(y: int, m: int): int {
    if m == 2 then (if Leap(y) then 29 else 28) else if m == 4 || m == 6 || m == 9 || m == 11 then 30 else 31
  }

  predicate ValidMonth(d: Date) {
    1 <= d.month <= 12
  }

  predicate ValidDate(d: Date) {
    ValidMonth(d) && 1 <= d.day <= MonthLength(d.year, d.month)
  }

  function NextDay(d: Date): Date {
    if d.day < MonthLength(d.year, d.month) then Date(d.year, d.month, d.day + 1)
    else if d.month < 12 then Date(d.year, d.month + 1, 1)
    else Date(d.year + 1, 1, 1)
  }

  /** C division: towards zero. */
  function Quot(a: int, b: int): int
    requires b > 0
  {
    if a >= 0 then a / b else -(-a / b)
  }

  /** days_from_civil, with the unsigned conversions of the code. */
  function DaysFromCivil(y0: int, m: int, d: int): int {
    var y := if m <= 2 then y0 - 1 else y0;
    var era := Quot(if y >= 0 then y else y - 399, 400);
    var yoe := (y - era * 400) % U32;
    var doy := (Quot(153 * (m + if m > 2 then -3 else 9) + 2, 5) + d - 1) % U32;
    var doe := (yoe * 365 + yoe / 4 - yoe / 100 + doy) % U32;
    era * 146097 + doe - 719468
  }

  function Days(d: Date): int {
    DaysFromCivil(d.year, d.month, d.day)
  }

  /** The same computation as it is written out a second time for the challenge. */
  function ChallengeDays(y: int, m: int, d: int): int {
    var yy := y - if m <= 2 then 1 else 0;
    var era := Quot(if yy >= 0 then yy else yy - 399, 400);
    var yoe := (yy - era * 400) % U32;
    var doy := (Quot(153 * (if m > 2 then m - 3 else m + 9) + 2, 5) % U32 + d - 1) % U32;
    var doe := (yoe * 365 + yoe / 4 - yoe / 100 + doy) % U32;
    era * 146097 + doe - 719468
  }

  lemma ChallengeAgrees(y: int, m: int, d: int)
    requires 1 <= m <= 12
    ensures ChallengeDays(y, m, d) == DaysFromCivil(y, m, d)
  {
    hide Quot;
    ModAddLeft(Quot(153 * (m + if m > 2 then -3 else 9) + 2, 5), d - 1);
  }

  lemma ModAddLeft(a: int, b: int)
    ensures (a % U32 + b) % U32 == (a + b) % U32
  {
  }

  /** Days before the month m in a year that begins on 1 March. */
  function MarchDays(m: int): int {
    if m == 3 then 0 else if m == 4 then 31 else if m == 5 then 61 else if m == 6 then 92
    else if m == 7 then 122 else if m == 8 then 153 else if m == 9 then 184 else if m == 10 then 214
    else if m == 11 then 245 else if m == 12 then 275 else if m == 1 then 306 else 337
  }

  /** Days before 1 March of the year y, counted from 1 March of the year 0. */
  function MarchStart(y: int): int {
    365 * y + y / 4 - y / 100 + y / 400
  }

  lemma MonthFormula(m: int)
    requires 1 <= m <= 12
    ensures Quot(153 * (m + if m > 2 then -3 else 9) + 2, 5) == MarchDays(m)
    ensures 0 <= MarchDays(m) <= 337
  {
  }

  /** The count of March-based years, months and days since 1 January 1970. */
  function MarchCount(y: int, m: int, d: int): int {
    MarchStart(if m <= 2 then y - 1 else y) + MarchDays(m) + d - 1 - 719468
  }

  /** No conversion wraps for a date, and the era arithmetic is floor division. */
  lemma DaysAre(y: int, m: int, d: int)
    requires 1 <= m <= 12 && 1 <= d <= 31
    ensures DaysFromCivil(y, m, d) == MarchCount(y, m, d)
  {
    hide Quot, MarchStart, MarchDays;
    MonthFormula(m);
    var yy := if m <= 2 then y - 1 else y;
    Era(yy);
    EraYears(yy / 400, yy % 400);
    Small(yy % 400, MarchDays(m) + d - 1);
  }

  lemma Small(yoe: int, doy: int)
    requires 0 <= yoe < 400 && 0 <= doy <= 400
    ensures yoe % U32 == yoe && doy % U32 == doy
    ensures var doe := yoe * 365 + yoe / 4 - yoe / 100 + doy; doe % U32 == doe
  {
  }

  lemma Era(y: int)
    ensures Quot(if y >= 0 then y else y - 399, 400) == y / 400
    ensures y - (y / 400) * 400 == y % 400 && (y / 400) * 400 + y % 400 == y
  {
  }

  lemma EraYears(era: int, yoe: int)
    requires 0 <= yoe < 400
    ensures MarchStart(era * 400 + yoe) == era * 146097 + yoe * 365 + yoe / 4 - yoe / 100
  {
    var y := era * 400 + yoe;
    assert y == 4 * (era * 100) + yoe && y / 4 == era * 100 + yoe / 4;
    assert y == 100 * (era * 4) + yoe && y / 100 == era * 4 + yoe / 100;
    assert y / 400 == era;
  }

  lemma YearStep(y: int)
    ensures MarchStart(y) - MarchStart(y - 1) == if Leap(y) then 366 else 365
  {
    Carries(y);
    assert y % 100 == 0 ==> y % 4 == 0;
    assert y % 400 == 0 ==> y % 100 == 0;
  }

  lemma Carries(y: int)
    ensures y / 4 - (y - 1) / 4 == if y % 4 == 0 then 1 else 0
    ensures y / 100 - (y - 1) / 100 == if y % 100 == 0 then 1 else 0
    ensures y / 400 - (y - 1) / 400 == if y % 400 == 0 then 1 else 0
  {
  }

  lemma EpochDay()
    ensures DaysFromCivil(1970, 1, 1) == 0
  {
    DaysAre(1970, 1, 1);
    hide DaysFromCivil;
  }

  /** The Gregorian count: 1 January 1970 is day 0 and every day follows the one before,
      across months, leap days and centuries, in every year. */
  lemma NextDayAddsOne(d: Date)
    requires ValidDate(d)
    ensures ValidDate(NextDay(d)) && Days(NextDay(d)) == Days(d) + 1
    ensures DaysFromCivil(1970, 1, 1) == 0
  {
    var e := NextDay(d);
    DaysAre(d.year, d.month, d.day);
    NextCount(d);
    DaysAre(e.year, e.month, e.day);
    EpochDay();
    hide DaysFromCivil, MarchCount, NextDay, ValidDate;
  }

  lemma NextCount(d: Date)
    requires ValidDate(d)
    ensures var e := NextDay(d);
            ValidDate(e) && 1 <= e.day <= 31
            && MarchCount(e.year, e.month, e.day) == MarchCount(d.year, d.month, d.day) + 1
  {
    YearStep(d.year);
    hide MarchStart, Leap;
  }

  function DaysAfterEpoch(n: nat): Date {
    if n == 0 then Date(1970, 1, 1) else NextDay(DaysAfterEpoch(n - 1))
  }

  /** Counting days forward from 1 January 1970 is the inverse. */
  lemma {:induction false} CountingForward(n: nat)
    ensures ValidDate(DaysAfterEpoch(n)) && Days(DaysAfterEpoch(n)) == n
  {
    hide DaysFromCivil, Quot;
    NextDayAddsOne(Date(1970, 1, 1));
    if n > 0 {
      CountingForward(n - 1);
      NextDayAddsOne(DaysAfterEpoch(n - 1));
    }
  }

  /** Lexicographic order. */
  predicate Earlier(a: Date, b: Date) {
    a.year < b.year || (a.year == b.year && (a.month < b.month || (a.month == b.month && a.day < b.day)))
  }

  /** Days before 1 January of the year y. */
  function YearStart(y: int): int {
    MarchStart(y - 1) + 306 - 719468
  }

  lemma InYear(d: Date)
    requires ValidDate(d)
    ensures YearStart(d.year) <= Days(d) < YearStart(d.year + 1)
  {
    DaysAre(d.year, d.month, d.day);
    YearStep(d.year);
    hide DaysFromCivil, Quot, MarchStart;
  }

  lemma {:induction false} YearsAscend(a: int, b: int)
    requires a <= b
    ensures YearStart(a) + 365 * (b - a) <= YearStart(b)
    decreases b - a
  {
    if a < b {
      YearStep(a);
      hide MarchStart;
      YearsAscend(a + 1, b);
    }
  }

  lemma SameYear(a: Date, b: Date)
    requires ValidDate(a) && ValidDate(b) && a.year == b.year && Earlier(a, b)
    ensures Days(a) < Days(b)
  {
    DaysAre(a.year, a.month, a.day);
    DaysAre(b.year, b.month, b.day);
    hide DaysFromCivil;
    CountInYear(a, b);
  }

  lemma CountInYear(a: Date, b: Date)
    requires ValidDate(a) && ValidDate(b) && a.year == b.year && Earlier(a, b)
    ensures MarchCount(a.year, a.month, a.day) < MarchCount(b.year, b.month, b.day)
  {
    hide MarchStart, Leap;
    YearStep(a.year);
    if a.month < b.month {
      assert a.day <= MonthLength(a.year, a.month);
      MonthsAscend(a.year, a.month, b.month);
      hide MarchCount, MonthLength;
    }
  }

  lemma {:induction false} MonthsAscend(y: int, m: int, n: int)
    requires 1 <= m < n <= 12
    ensures MarchCount(y, m, MonthLength(y, m)) < MarchCount(y, n, 1)
    ensures forall d :: MarchCount(y, m, d) == MarchCount(y, m, 1) + d - 1
    decreases n - m
  {
    hide MarchStart, Leap;
    YearStep(y);
    if m + 1 < n {
      MonthsAscend(y, m + 1, n);
    }
  }

  /** Day numbers are in calendar order, both ways, so no two dates share one. */
  lemma DaysInOrder(a: Date, b: Date)
    requires ValidDate(a) && ValidDate(b)
    ensures Days(a) < Days(b) <==> Earlier(a, b)
    ensures Days(a) == Days(b) <==> a == b
  {
    Ascending(a, b);
    Ascending(b, a);
  }

  lemma Ascending(a: Date, b: Date)
    requires ValidDate(a) && ValidDate(b)
    ensures Earlier(a, b) ==> Days(a) < Days(b)
  {
    hide DaysFromCivil, Quot, MarchStart;
    if Earlier(a, b) {
      if a.year == b.year {
        SameYear(a, b);
      } else {
        InYear(a);
        InYear(b);
        YearsAscend(a.year + 1, b.year);
      }
    }
  }

  datatype DateTime = DateTime(date: Date, hour: int, minute: int, second: int)

  predicate ValidTime(t: DateTime) {
    0 <= t.hour <= 23 && 0 <= t.minute <= 59 && 0 <= t.second <= 59
  }

  function Seconds(t: DateTime): int {
    Days(t.date) * 86400 + t.hour * 3600 + t.minute * 60 + t.second
  }

  /** datetime_to_epoch: 32-bit unsigned arithmetic throughout. */
  function Epoch(t: DateTime): int {
    ((Days(t.date) % U32) * 86400 % U32 + t.hour * 3600 % U32 + t.minute * 60 % U32 + t.second % U32) % U32
  }

  /** The epoch is the true count of seconds exactly when that count fits 32 bits. */
  lemma EpochExactIff(t: DateTime)
    ensures Epoch(t) == Seconds(t) % U32
    ensures Epoch(t) == Seconds(t) <==> 0 <= Seconds(t) < U32
  {
    var d, h, m, s := Days(t.date), t.hour * 3600, t.minute * 60, t.second;
    hide DaysFromCivil, Quot;
    ModMul(d, 86400);
    ModAdd(d * 86400, h);
    ModAdd(d * 86400 + h, m);
    ModAdd(d * 86400 + h + m, s);
    ModAdd3(d * 86400, h, m, s);
  }

  lemma ModAdd(a: int, b: int)
    ensures (a % U32 + b % U32) % U32 == (a + b) % U32
  {
  }

  lemma ModAdd3(a: int, b: int, c: int, d: int)
    ensures (a % U32 + b % U32 + c % U32 + d % U32) % U32 == (a + b + c + d) % U32
  {
  }

  lemma ModMul(a: int, k: int)
    ensures (a % U32) * k % U32 == a * k % U32
  {
    var q := a / U32;
    assert a == U32 * q + a % U32;
    assert a * k == U32 * (q * k) + (a % U32) * k;
    ModShift((a % U32) * k, q * k);
  }

  lemma ModShift(a: int, q: int)
    ensures (U32 * q + a) % U32 == a % U32
  {
  }

  predicate InRange(t: DateTime) {
    ValidDate(t.date) && ValidTime(t) && 1970 <= t.date.year <= 2105
  }

  predicate EarlierTime(a: DateTime, b: DateTime) {
    || Earlier(a.date, b.date)
    || (a.date == b.date &&
        (a.hour < b.hour || (a.hour == b.hour && (a.minute < b.minute || (a.minute == b.minute && a.second < b.second)))))
  }

  lemma RangeFits(t: DateTime)
    requires InRange(t)
    ensures 0 <= Seconds(t) < U32 && Epoch(t) == Seconds(t)
  {
    DaysInRange(t.date);
    EpochExactIff(t);
    hide DaysFromCivil, Quot, Epoch;
  }

  lemma DaysInRange(d: Date)
    requires ValidDate(d) && 1970 <= d.year <= 2105
    ensures 0 <= Days(d) < 49673
  {
    InYear(d);
    YearsAscend(1970, d.year);
    YearsAscend(d.year + 1, 2106);
    assert YearStart(1970) == 0 && YearStart(2106) == 49673;
    hide *;
  }

  /** From 1970 to 2105 the 32-bit epoch orders date-times exactly as the calendar does. */
  lemma EpochInOrder(a: DateTime, b: DateTime)
    requires InRange(a) && InRange(b)
    ensures Epoch(a) < Epoch(b) <==> EarlierTime(a, b)
  {
    RangeFits(a);
    RangeFits(b);
    DaysInOrder(a.date, b.date);
    hide DaysFromCivil, Quot, Epoch;
  }

  /** The day of the week of cron_matches, 0 for Sunday. */
  function CodedWeekday(days: int): int {
    ((days % U32 + 4) % U32) % 7
  }

  /** It is right exactly from 28 December 1969 on: before that the unsigned conversion
      shifts it, because 2^32 is no multiple of 7. */
  lemma WeekdayRightIff(days: int)
    requires -0x8000_0000 <= days < 0x8000_0000
    ensures CodedWeekday(days) == (days + 4) % 7 <==> days >= -4
    ensures CodedWeekday(0) == 4
  {
    if days < -4 {
      assert CodedWeekday(days) == (days + 4 + U32) % 7;
      assert U32 == 7 * 613566756 + 4;
      Shift7(days + 8, 613566756);
      NotFour(days + 4);
    }
  }

  lemma Shift7(a: int, q: int)
    ensures (a + 7 * q) % 7 == a % 7
  {
  }

  lemma NotFour(a: int)
    ensures (a + 4) % 7 != a % 7
  {
  }

  /** The weekday follows the calendar: one further each day. */
  lemma WeekdayAdvances(d: Date)
    requires ValidDate(d) && 1970 <= d.year <= 2105
    ensures CodedWeekday(Days(NextDay(d))) == (CodedWeekday(Days(d)) + 1) % 7
  {
    hide *;
    NextDayAddsOne(d);
    DaysInRange(d);
    WeekdayStep(Days(d));
  }

  lemma WeekdayStep(n: int)
    requires 0 <= n < 49673
    ensures CodedWeekday(n + 1) == (CodedWeekday(n) + 1) % 7
  {
    hide CodedWeekday;
    WeekdayRightIff(n);
    WeekdayRightIff(n + 1);
    assert n + 1 + 4 == (n + 4) + 1;
    Mod7(n + 4);
  }

  lemma Mod7(a: int)
    ensures (a + 1) % 7 == (a % 7 + 1) % 7
  {
  }
}
