/** The software clock: the last time read from the chip, carried forward by the seconds
    elapsed since (jpp_rtc_get_current). */
module Clock {
  import opened Calendar

  /** jpp_rtc_datetime_valid, without the fields the clock does not advance: a day of 31
      passes in any month. */
  predicate RtcValid(t: DateTime) {
    t.date.year >= 2000 && ValidMonth(t.date) && 1 <= t.date.day <= 31 && ValidTime(t)
  }

  function Rolled(d: Date, n: nat): Date {
    if n == 0 then d else NextDay(Rolled(d, n - 1))
  }

  function SecondOfDay(t: DateTime): int {
    t.hour * 3600 + t.minute * 60 + t.second
  }

  /** The time `elapsed` seconds after t carried from seconds to days. */
  function Advanced(t: DateTime, elapsed: int): DateTime
    requires RtcValid(t)
  {
    if elapsed <= 0 then t
    else
      var second := t.second + elapsed;
      var minute := t.minute + second / 60;
      var hour := t.hour + minute / 60;
      DateTime(Rolled(t.date, hour / 24), hour % 24, minute % 60, second % 60)
  }

  method GetCurrent(t: DateTime, elapsed: int) returns (now: DateTime)
    requires RtcValid(t)
    ensures now == Advanced(t, elapsed)
  {
    if elapsed <= 0 {
      return t;
    }
    var second, minute := Carry60(t.second + elapsed, t.minute);
    var hour;
    minute, hour := Carry60(minute, t.hour);
    var date;
    date, hour := CarryDays(t.date, hour);
    now := DateTime(date, hour, minute, second);
  }

  /** The minute and hour loops: whole sixties move up. */
  method Carry60(low: int, high: int) returns (rest: int, up: int)
    requires low >= 0
    ensures rest == low % 60 && up == high + low / 60
  {
    rest, up := low, high;
    while rest >= 60
      invariant rest >= 0 && 60 * (up - high) + rest == low
    {
      rest, up := rest - 60, up + 1;
    }
  }

  /** The day loop. */
  method CarryDays(d: Date, hours: int) returns (date: Date, hour: int)
    requires ValidMonth(d) && hours >= 0
    ensures date == Rolled(d, hours / 24) && hour == hours % 24
  {
    hide NextDay, MonthLength, ValidMonth;
    date, hour := d, hours;
    ghost var n: nat := 0;
    while hour >= 24
      invariant hour >= 0 && date == Rolled(d, n) && ValidMonth(date) && 24 * n + hour == hours
    {
      hour := hour - 24;
      n := n + 1;
      date := Roll(date);
    }
  }

  /** The body of the day loop: the table of month lengths and the leap-year patch. */
  function Roll(d: Date): (r: Date)
    requires ValidMonth(d)
    ensures r == NextDay(d) && ValidMonth(r)
  {
    var monthIndex := (d.month - 1) % 12;
    var table := [31, 28, 31, 30, 31, 30, 31, 31, 30, 31, 30, 31];
    var maxDay := if monthIndex == 1 && d.year % 4 == 0 && (d.year % 100 != 0 || d.year % 400 == 0) then 29
                  else table[monthIndex];
    if d.day + 1 > maxDay then
      if d.month + 1 > 12 then Date(d.year + 1, 1, 1) else Date(d.year, d.month + 1, 1)
    else Date(d.year, d.month, d.day + 1)
  }

  lemma {:induction false} RolledMonth(d: Date, n: nat)
    requires ValidMonth(d)
    ensures ValidMonth(Rolled(d, n))
  {
    if n > 0 {
      RolledMonth(d, n - 1);
    }
  }

  lemma {:induction false} RolledDays(d: Date, n: nat)
    requires ValidDate(d)
    ensures ValidDate(Rolled(d, n)) && Days(Rolled(d, n)) == Days(d) + n
  {
    hide DaysFromCivil, ValidDate;
    if n > 0 {
      RolledDays(d, n - 1);
      NextDayAddsOne(Rolled(d, n - 1));
    }
  }

  lemma {:induction false} RolledFrom(d: Date, n: nat)
    ensures Rolled(d, n + 1) == Rolled(NextDay(d), n)
  {
    if n > 0 {
      RolledFrom(d, n - 1);
    }
  }

  /** A day beyond the end of its month has the number of a later date already, so the
      first midnight does not move it on by one. */
  lemma OverlongDay(d: Date)
    requires ValidMonth(d) && MonthLength(d.year, d.month) < d.day <= 31
    ensures ValidDate(NextDay(d)) && Days(NextDay(d)) <= Days(d)
  {
    var last := Date(d.year, d.month, MonthLength(d.year, d.month));
    NextDayAddsOne(last);
    assert NextDay(d) == NextDay(last);
    DaysAre(d.year, d.month, d.day);
    DaysAre(d.year, d.month, last.day);
    hide DaysFromCivil;
  }

  /** Midnights passed. */
  function Midnights(t: DateTime, elapsed: int): int {
    (t.hour + (t.minute + (t.second + elapsed) / 60) / 60) / 24
  }

  lemma AdvancedSeconds(t: DateTime, elapsed: int)
    requires RtcValid(t) && elapsed > 0
    ensures ValidTime(Advanced(t, elapsed)) && Midnights(t, elapsed) >= 0
    ensures Midnights(t, elapsed) == 0 <==> SecondOfDay(t) + elapsed < 86400
    ensures Seconds(Advanced(t, elapsed)) - Seconds(t) - elapsed ==
            86400 * (Days(Advanced(t, elapsed).date) - Days(t.date) - Midnights(t, elapsed))
  {
    hide DaysFromCivil, Rolled;
    var second := t.second + elapsed;
    var minute := t.minute + second / 60;
    var hour := t.hour + minute / 60;
    assert second == 60 * (second / 60) + second % 60;
    assert minute == 60 * (minute / 60) + minute % 60;
    assert hour == 24 * (hour / 24) + hour % 24;
  }

  /** The clock runs true, by exactly the elapsed seconds, unless it holds a day its month
      does not have and a midnight has passed. */
  lemma ClockTrueIff(t: DateTime, elapsed: int)
    requires RtcValid(t) && elapsed >= 0
    ensures Seconds(Advanced(t, elapsed)) == Seconds(t) + elapsed <==>
            ValidDate(t.date) || SecondOfDay(t) + elapsed < 86400
    ensures ValidTime(Advanced(t, elapsed))
    ensures ValidDate(t.date) ==> ValidDate(Advanced(t, elapsed).date)
  {
    if elapsed > 0 {
      var n := Midnights(t, elapsed);
      AdvancedSeconds(t, elapsed);
      if ValidDate(t.date) {
        RolledDays(t.date, n);
      } else if n > 0 {
        OverlongDay(t.date);
        RolledFrom(t.date, n - 1);
        RolledDays(NextDay(t.date), n - 1);
      }
      hide DaysFromCivil, Rolled, NextDay;
    }
  }
}
