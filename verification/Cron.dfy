/** The next firing time of a cron expression. */
module Cron {
  import opened BinMap
  import opened Calendar
  import TreeIndex

  /** One bit mask for each field. */
  datatype CronExpr = CronExpr(sec: nat, min: nat, hour: nat, dom: nat, month: nat, dow: nat)

  datatype Firing = At(t: nat) | Never

  /** `matchDay` */
  predicate MatchDay(e: CronExpr, t: nat) {
    if e.dom == 0xffff_fffe then Marked(e.dow, Weekday(t))
    else if e.dow == 0x7f then Marked(e.dom, Day(t))
    else Marked(e.dow, Weekday(t)) || Marked(e.dom, Day(t))
  }

  /** All fields match. */
  predicate Matches(e: CronExpr, t: nat) {
    && Marked(e.month, Month(t)) && MatchDay(e, t)
    && Marked(e.hour, Hour(t)) && Marked(e.min, Minute(t)) && Marked(e.sec, Second(t))
  }

  ghost predicate NoMatch(e: CronExpr, a: nat, b: nat) {
    forall u | a <= u < b :: !Matches(e, u)
  }

  /** Each field but the seconds matches, or all lower fields are at their least. */
  ghost predicate Settled(e: CronExpr, t: nat) {
    && (Marked(e.month, Month(t)) || t == MonthStart(t))
    && (MatchDay(e, t) || t % DAY == 0)
    && (Marked(e.hour, Hour(t)) || t % HOUR == 0)
    && (Marked(e.min, Minute(t)) || t % MINUTE == 0)
  }

  /** The end of the year after the given one. */
  function YearEnd(year: nat): nat {
    DaysBefore(12 * (year + 1)) * DAY
  }

  lemma BeforeYearEnd(t: nat, year: nat)
    ensures Year(t) > year + 1 <==> t >= YearEnd(year)
    ensures t < YearEnd(year) ==> MonthEnd(t) <= YearEnd(year)
  {
    var n := MonthNumber(t);
    hide DaysBefore, MonthNumber;
    if n < 12 * (year + 1) {
      DaysGrow(n + 1, 12 * (year + 1));
    } else {
      DaysGrow(12 * (year + 1), n);
    }
  }

  // ----- units of time -----

  /** From a month that does not match to the next: nothing is skipped that matches. */
  lemma SkipMonth(e: CronExpr, t: nat)
    requires !Marked(e.month, Month(t))
    ensures NoMatch(e, MonthStart(t), MonthEnd(t))
  {
    hide DaysBefore, Marked, MatchDay;
    forall u | MonthStart(t) <= u < MonthEnd(t)
      ensures !Matches(e, u)
    {
      SameMonth(t, u);
    }
  }

  lemma NextMonth(t: nat)
    requires t == MonthStart(t)
    ensures AddDate(t, 1, 0) == MonthEnd(t) > t
    ensures var u := MonthEnd(t); u == MonthStart(u) && u % DAY == 0 && u % HOUR == 0 && u % MINUTE == 0
  {
    var n := MonthNumber(t);
    assert t / DAY == DaysBefore(n) && t % DAY == 0 && Day(t) == 1;
    MonthBegins(n + 1);
    assert DaysBefore(n + 1) == DaysBefore(n) + DaysIn(n);
    Multiples(DaysBefore(n + 1));
  }

  lemma MonthBegins(n: nat)
    ensures var u := DaysBefore(n) * DAY; MonthNumber(u) == n && MonthStart(u) == u && Day(u) == 1
  {
    var u := DaysBefore(n) * DAY;
    assert u / DAY == DaysBefore(n);
    assert DaysBefore(n + 1) == DaysBefore(n) + DaysIn(n);
    MonthUnique(u / DAY, MonthNumber(u), n);
  }

  lemma Multiples(d: nat)
    ensures d * DAY % DAY == 0 && d * DAY % HOUR == 0 && d * DAY % MINUTE == 0
  {
    TreeIndex.DivModUnique(d * DAY, DAY, d, 0);
    TreeIndex.DivModUnique(d * DAY, HOUR, 24 * d, 0);
    TreeIndex.DivModUnique(d * DAY, MINUTE, 1440 * d, 0);
  }

  /** The start of the month, as `time.Date` gives it. */
  lemma StartOfMonth(t: nat)
    ensures Date(MonthNumber(t), 1, 0) == MonthStart(t) && MonthStart(MonthStart(t)) == MonthStart(t)
    ensures MonthEnd(MonthStart(t)) == MonthEnd(t)
  {
    MonthBegins(MonthNumber(t));
  }

  lemma SkipDay(e: CronExpr, t: nat)
    requires !MatchDay(e, t)
    ensures NoMatch(e, Truncate(t, DAY), Truncate(t, DAY) + DAY)
  {
    hide DaysBefore, MonthNumber, Marked, Day, Weekday;
    forall u | Truncate(t, DAY) <= u < Truncate(t, DAY) + DAY
      ensures !Matches(e, u)
    {
      SameDay(t, u);
    }
  }

  /** The next day is in the same month, or the first of the next one. */
  lemma NextDay(t: nat)
    requires t % DAY == 0
    ensures AddDate(t, 0, 1) == t + DAY <= MonthEnd(t)
    ensures var u := t + DAY;
      && u % DAY == 0 && u % HOUR == 0 && u % MINUTE == 0
      && if Day(u) == 1 then u == MonthStart(u) else MonthNumber(u) == MonthNumber(t) && u < MonthEnd(t)
  {
    hide DaysBefore;
    var n, u := MonthNumber(t), t + DAY;
    assert t == t / DAY * DAY && u / DAY == t / DAY + 1 && u == u / DAY * DAY;
    Multiples(u / DAY);
    if u < MonthEnd(t) {
      SameMonth(t, u);
    } else {
      assert u / DAY == DaysBefore(n + 1);
      MonthBegins(n + 1);
    }
  }

  lemma StartOfDay(t: nat)
    ensures Date(MonthNumber(t), Day(t), 0) == Truncate(t, DAY) && Truncate(t, DAY) % DAY == 0
    ensures Truncate(t, DAY) / DAY == t / DAY && MonthEnd(Truncate(t, DAY)) == MonthEnd(t)
    ensures MonthNumber(Truncate(t, DAY)) == MonthNumber(t)
  {
  }

  lemma SkipHour(e: CronExpr, t: nat)
    requires !Marked(e.hour, Hour(t))
    ensures NoMatch(e, Truncate(t, HOUR), Truncate(t, HOUR) + HOUR)
  {
    hide DaysBefore, MonthNumber, Marked, MatchDay, Month;
    forall u | Truncate(t, HOUR) <= u < Truncate(t, HOUR) + HOUR
      ensures !Matches(e, u)
    {
      HourOf(t, u);
    }
  }

  lemma HourOf(t: nat, u: nat)
    requires t - t % HOUR <= u < t - t % HOUR + HOUR
    ensures Hour(u) == Hour(t) && u / DAY == t / DAY
  {
    var k := t / HOUR;
    assert t == k * HOUR + t % HOUR && u / HOUR == k;
    assert k == 24 * (k / 24) + k % 24;
    assert t == (k / 24) * DAY + (k % 24) * HOUR + t % HOUR && u == (k / 24) * DAY + (k % 24) * HOUR + u % HOUR;
    assert t / DAY == k / 24 && u / DAY == k / 24;
  }

  /** The next hour is in the same day, or the first of the next one. */
  lemma NextHour(t: nat)
    requires t % HOUR == 0
    ensures var u := t + HOUR;
      && u % HOUR == 0 && u % MINUTE == 0 && u <= Truncate(t, DAY) + DAY
      && if Hour(u) == 0 then u % DAY == 0 else u / DAY == t / DAY && u < Truncate(t, DAY) + DAY
  {
    hide Hour, Truncate;
    var q, r := t / HOUR / 24, t / HOUR % 24;
    assert t == DAY * q + HOUR * r;
    HourParts(t, q, r);
    if r < 23 {
      HourParts(t + HOUR, q, r + 1);
    } else {
      HourParts(t + HOUR, q + 1, 0);
    }
  }

  lemma HourParts(t: nat, q: nat, r: nat)
    requires t == DAY * q + HOUR * r && r < 24
    ensures t / DAY == q && t % DAY == HOUR * r && Truncate(t, DAY) == DAY * q && Hour(t) == r
    ensures t % HOUR == 0 && t % MINUTE == 0
  {
    TreeIndex.DivModUnique(t, DAY, q, HOUR * r);
    TreeIndex.DivModUnique(t, HOUR, 24 * q + r, 0);
    TreeIndex.DivModUnique(t, MINUTE, 60 * (24 * q + r), 0);
  }

  lemma SkipMinute(e: CronExpr, t: nat)
    requires !Marked(e.min, Minute(t))
    ensures NoMatch(e, Truncate(t, MINUTE), Truncate(t, MINUTE) + MINUTE)
  {
    hide DaysBefore, MonthNumber, Marked, MatchDay, Month, Hour;
    forall u | Truncate(t, MINUTE) <= u < Truncate(t, MINUTE) + MINUTE
      ensures !Matches(e, u)
    {
      MinuteOf(t, u);
    }
  }

  lemma MinuteOf(t: nat, u: nat)
    requires t - t % MINUTE <= u < t - t % MINUTE + MINUTE
    ensures Minute(u) == Minute(t) && u / HOUR == t / HOUR
  {
    var k := t / MINUTE;
    assert t == k * MINUTE + t % MINUTE && u / MINUTE == k;
    assert k == 60 * (k / 60) + k % 60;
    assert t == (k / 60) * HOUR + (k % 60) * MINUTE + t % MINUTE &&
      u == (k / 60) * HOUR + (k % 60) * MINUTE + u % MINUTE;
    assert t / HOUR == k / 60 && u / HOUR == k / 60;
  }

  lemma NextMinute(t: nat)
    requires t % MINUTE == 0
    ensures var u := t + MINUTE;
      && u % MINUTE == 0 && u <= Truncate(t, HOUR) + HOUR
      && if Minute(u) == 0 then u % HOUR == 0 else u / HOUR == t / HOUR && u < Truncate(t, HOUR) + HOUR
  {
    var q, r := t / MINUTE / 60, t / MINUTE % 60;
    assert t == HOUR * q + MINUTE * r;
    MinuteParts(t, q, r);
    if r < 59 {
      MinuteParts(t + MINUTE, q, r + 1);
    } else {
      MinuteParts(t + MINUTE, q + 1, 0);
    }
  }

  lemma MinuteParts(t: nat, q: nat, r: nat)
    requires t == HOUR * q + MINUTE * r && r < 60
    ensures t / HOUR == q && t % HOUR == MINUTE * r && Minute(t) == r && t % MINUTE == 0
  {
    TreeIndex.DivModUnique(t, HOUR, q, MINUTE * r);
    TreeIndex.DivModUnique(t, MINUTE, 60 * q + r, 0);
  }


  /** The next second is in the same minute, or the first of the next one. */
  lemma NextSecond(t: nat)
    ensures if Second(t + 1) == 0 then (t + 1) % MINUTE == 0 else (t + 1) / MINUTE == t / MINUTE
  {
  }

  // ----- the search -----

  lemma SameHour(t: nat, u: nat)
    requires t / HOUR == u / HOUR
    ensures Hour(u) == Hour(t) && u / DAY == t / DAY
  {
    HourOf(t, u);
  }

  lemma SameMinute(t: nat, u: nat)
    requires t / MINUTE == u / MINUTE
    ensures Minute(u) == Minute(t) && u / HOUR == t / HOUR
  {
    MinuteOf(t, u);
  }

  /** The search, which began at start, has got to t without passing a match; moved says whether it has moved yet. */
  ghost predicate Reached(e: CronExpr, start: nat, year: nat, t: nat, moved: bool) {
    start <= t <= YearEnd(year) && NoMatch(e, start, t) && if moved then Settled(e, t) else t == start
  }

  lemma NoMatchJoin(e: CronExpr, a: nat, b: nat, c: nat, d: nat)
    requires NoMatch(e, a, b) && NoMatch(e, c, d) && c <= b
    ensures NoMatch(e, a, d)
  {
    hide Matches;
  }

  /** The first second of a month, and of a year. */
  ghost predicate AtMonthStart(t: nat) {
    t == MonthStart(t) && Day(t) == 1 && t % DAY == 0
  }

  ghost predicate AtYearStart(t: nat) {
    AtMonthStart(t) && Month(t) == 1
  }

  lemma MonthStartsAt(t: nat)
    requires t == MonthStart(t)
    ensures AtMonthStart(t)
  {
    hide DaysBefore;
    MonthBegins(MonthNumber(t));
    Multiples(DaysBefore(MonthNumber(t)));
  }

  /** The loop on months; retry stands for the jump back at the start of a year. */
  method MonthLoop(e: CronExpr, t0: nat, moved0: bool, ghost start: nat, ghost year: nat)
    returns (t: nat, moved: bool, retry: bool)
    requires Reached(e, start, year, t0, moved0) && t0 < YearEnd(year)
    ensures Reached(e, start, year, t, moved) && t >= t0 && (retry ==> t > t0 && AtYearStart(t))
    ensures !retry ==> t < YearEnd(year) && Marked(e.month, Month(t))
  {
    hide Marked, MatchDay, NoMatch, YearEnd, DaysBefore, MonthNumber, Month, Year, MonthEnd, MonthStart, AddDate, Date;
    t, moved, retry := t0, moved0, false;
    while !Marked(e.month, Month(t))
      invariant Reached(e, start, year, t, moved) && t0 <= t < YearEnd(year)
      decreases YearEnd(year) - t
    {
      ghost var was := t;
      StartOfMonth(t);
      SkipMonth(e, t);
      InMonth(t);
      BeforeYearEnd(t, year);
      if !moved {
        moved := true;
        t := Date(MonthNumber(t), 1, 0);
      }
      NextMonth(t);
      NoMatchJoin(e, start, was, MonthStart(was), MonthEnd(was));
      t := AddDate(t, 1, 0);
      YearBegins(t, year);
      MonthStartsAt(t);
      if Month(t) == 1 {
        retry := true;
        return;
      }
    }
  }

  /** The bound of the search is the start of a January. */
  lemma YearBegins(t: nat, year: nat)
    ensures t == YearEnd(year) ==> Month(t) == 1 && Day(t) == 1 && t % DAY == 0 && Hour(t) == 0
  {
    hide DaysBefore, MonthNumber, Hour, Day;
    if t == YearEnd(year) {
      MonthBegins(12 * (year + 1));
      Multiples(DaysBefore(12 * (year + 1)));
      MonthNumbers(year);
      Midnight(t);
    }
  }

  lemma MonthNumbers(year: nat)
    ensures 12 * (year + 1) % 12 == 0
  {
  }

  lemma Midnight(t: nat)
    requires t % DAY == 0
    ensures Hour(t) == 0
  {
    TreeIndex.DivModUnique(t, HOUR, 24 * (t / DAY), 0);
  }

  /** The loop on days; it jumps back at the start of a month. */
  method DayLoop(e: CronExpr, t0: nat, moved0: bool, ghost start: nat, ghost year: nat)
    returns (t: nat, moved: bool, retry: bool)
    requires Reached(e, start, year, t0, moved0) && t0 < YearEnd(year) && Marked(e.month, Month(t0))
    ensures Reached(e, start, year, t, moved) && t >= t0 && (retry ==> t > t0 && AtMonthStart(t))
    ensures !retry ==> t < YearEnd(year) && Marked(e.month, Month(t)) && MatchDay(e, t)
  {
    hide Reached, Marked, MatchDay, YearEnd, MonthNumber, Month, Day, AddDate, Date, AtMonthStart;
    t, moved, retry := t0, moved0, false;
    while !MatchDay(e, t)
      invariant Reached(e, start, year, t, moved) && t0 <= t < YearEnd(year) && Marked(e.month, Month(t))
      decreases YearEnd(year) - t
    {
      DayStep(e, start, year, t, moved);
      if !moved {
        moved := true;
        t := Date(MonthNumber(t), Day(t), 0);
      }
      t := AddDate(t, 0, 1);
      if Day(t) == 1 {
        retry := true;
        return;
      }
    }
  }

  lemma DayStep(e: CronExpr, start: nat, year: nat, t: nat, moved: bool)
    requires Reached(e, start, year, t, moved) && t < YearEnd(year) && Marked(e.month, Month(t)) && !MatchDay(e, t)
    ensures var u := AddDate(if moved then t else Date(MonthNumber(t), Day(t), 0), 0, 1);
      && u > t && Reached(e, start, year, u, true)
      && (if Day(u) == 1 then AtMonthStart(u) else u < YearEnd(year) && Marked(e.month, Month(u)))
  {
    hide Marked, MatchDay, NoMatch, YearEnd, DaysBefore, MonthNumber, Year, MonthEnd, MonthStart, AddDate, Date, Day;
    var d := Truncate(t, DAY);
    StartOfDay(t);
    SkipDay(e, t);
    BeforeYearEnd(t, year);
    NextDay(d);
    NoMatchJoin(e, start, t, d, d + DAY);
  }

  /** The loop on hours; it jumps back at the start of a day. */
  method HourLoop(e: CronExpr, t0: nat, moved0: bool, ghost start: nat, ghost year: nat)
    returns (t: nat, moved: bool, retry: bool)
    requires Reached(e, start, year, t0, moved0) && t0 < YearEnd(year) && Marked(e.month, Month(t0)) && MatchDay(e, t0)
    ensures Reached(e, start, year, t, moved) && t >= t0 && (retry ==> t > t0 && t % DAY == 0)
    ensures !retry ==>
      t < YearEnd(year) && Marked(e.month, Month(t)) && MatchDay(e, t) && Marked(e.hour, Hour(t))
  {
    hide Reached, Marked, MatchDay, YearEnd, Month, Hour, Truncate;
    t, moved, retry := t0, moved0, false;
    while !Marked(e.hour, Hour(t))
      invariant Reached(e, start, year, t, moved) && t0 <= t < YearEnd(year)
      invariant Marked(e.month, Month(t)) && MatchDay(e, t)
      decreases YearEnd(year) - t
    {
      HourStep(e, start, year, t, moved);
      if !moved {
        moved := true;
        t := Truncate(t, HOUR);
      }
      t := t + HOUR;
      if Hour(t) == 0 {
        retry := true;
        return;
      }
    }
  }

  lemma HourStep(e: CronExpr, start: nat, year: nat, t: nat, moved: bool)
    requires Reached(e, start, year, t, moved) && t < YearEnd(year)
    requires Marked(e.month, Month(t)) && MatchDay(e, t) && !Marked(e.hour, Hour(t))
    ensures moved ==> Truncate(t, HOUR) == t
    ensures var u := Truncate(t, HOUR) + HOUR;
      && u > t && Reached(e, start, year, u, true)
      && (if Hour(u) == 0 then u % DAY == 0
          else u < YearEnd(year) && Marked(e.month, Month(u)) && MatchDay(e, u))
  {
    hide Marked, MatchDay, NoMatch, YearEnd, DaysBefore, MonthNumber, MonthEnd, MonthStart, Month, Hour, Minute;
    var h := Truncate(t, HOUR);
    SkipHour(e, t);
    HourOf(t, h);
    NextHour(h);
    DayInYear(t, year);
    SameDayStart(t, h);
    NoMatchJoin(e, start, t, h, h + HOUR);
    if Hour(h + HOUR) == 0 {
      DayBegins(e, t, h + HOUR);
    } else {
      DayFields(e, t, h + HOUR);
    }
  }


  lemma DayFields(e: CronExpr, t: nat, u: nat)
    requires t / DAY == u / DAY
    ensures Month(u) == Month(t) && (MatchDay(e, u) <==> MatchDay(e, t))
  {
    hide DaysBefore, MonthNumber, Marked;
    SameDay(t, u);
  }

  lemma DayInYear(t: nat, year: nat)
    requires t < YearEnd(year)
    ensures Truncate(t, DAY) + DAY <= YearEnd(year)
  {
    hide DaysBefore;
    var d := DaysBefore(12 * (year + 1));
    assert t == t / DAY * DAY + t % DAY && YearEnd(year) == d * DAY;
  }

  /** At the start of a day right behind a day in a month that matches, all but the day and lower fields is settled. */
  lemma DayBegins(e: CronExpr, t: nat, u: nat)
    requires u == Truncate(t, DAY) + DAY && Marked(e.month, Month(t))
    ensures Marked(e.month, Month(u)) || u == MonthStart(u)
    ensures u % DAY == 0 && u % HOUR == 0 && u % MINUTE == 0
  {
    hide DaysBefore, MonthNumber, Marked, Day;
    StartOfDay(t);
    SameDay(t, Truncate(t, DAY));
    NextDay(Truncate(t, DAY));
  }

  /** The loop on minutes; it jumps back at the start of an hour. */
  method MinuteLoop(e: CronExpr, t0: nat, moved0: bool, ghost start: nat, ghost year: nat)
    returns (t: nat, moved: bool, retry: bool)
    requires Reached(e, start, year, t0, moved0) && t0 < YearEnd(year) && Marked(e.month, Month(t0)) &&
      MatchDay(e, t0) &&
      Marked(e.hour, Hour(t0))
    ensures Reached(e, start, year, t, moved) && t >= t0 && (retry ==> t > t0 && t % HOUR == 0)
    ensures !retry ==>
      t < YearEnd(year) && Marked(e.month, Month(t)) && MatchDay(e, t) && Marked(e.hour, Hour(t)) &&
      Marked(e.min, Minute(t))
  {
    hide Reached, Marked, MatchDay, YearEnd, Month, Hour, Minute, Truncate;
    t, moved, retry := t0, moved0, false;
    while !Marked(e.min, Minute(t))
      invariant Reached(e, start, year, t, moved) && t0 <= t < YearEnd(year)
      invariant Marked(e.month, Month(t)) && MatchDay(e, t) && Marked(e.hour, Hour(t))
      decreases YearEnd(year) - t
    {
      MinuteStep(e, start, year, t, moved);
      if !moved {
        moved := true;
        t := Truncate(t, MINUTE);
      }
      t := t + MINUTE;
      if Minute(t) == 0 {
        retry := true;
        return;
      }
    }
  }

  lemma MinuteStep(e: CronExpr, start: nat, year: nat, t: nat, moved: bool)
    requires Reached(e, start, year, t, moved) && t < YearEnd(year)
    requires Marked(e.month, Month(t)) && MatchDay(e, t) && Marked(e.hour, Hour(t)) && !Marked(e.min, Minute(t))
    ensures moved ==> Truncate(t, MINUTE) == t
    ensures var u := Truncate(t, MINUTE) + MINUTE;
      && u > t && Reached(e, start, year, u, true)
      && (if Minute(u) == 0 then u % HOUR == 0
          else u < YearEnd(year) && Marked(e.month, Month(u)) && MatchDay(e, u) && Marked(e.hour, Hour(u)))
  {
    hide Marked, MatchDay, NoMatch, YearEnd, DaysBefore, MonthNumber, MonthEnd, MonthStart, Month, Hour, Minute;
    var m := Truncate(t, MINUTE);
    SkipMinute(e, t);
    MinuteOf(t, m);
    NextMinute(m);
    HourInYear(t, year);
    SameHourStart(t, m);
    NoMatchJoin(e, start, t, m, m + MINUTE);
    if Minute(m + MINUTE) == 0 {
      HourBegins(e, t, m + MINUTE);
    } else {
      SameHour(t, m + MINUTE);
      DayFields(e, t, m + MINUTE);
    }
  }

  lemma SameHourStart(t: nat, m: nat)
    requires m / HOUR == t / HOUR
    ensures Truncate(m, HOUR) == Truncate(t, HOUR)
  {
  }


  lemma HourInYear(t: nat, year: nat)
    requires t < YearEnd(year)
    ensures Truncate(t, HOUR) + HOUR <= YearEnd(year)
  {
    hide DaysBefore;
    var d := DaysBefore(12 * (year + 1));
    assert t == t / HOUR * HOUR + t % HOUR && YearEnd(year) == (24 * d) * HOUR;
  }

  /** The same at the start of an hour. */
  lemma HourBegins(e: CronExpr, t: nat, u: nat)
    requires u == Truncate(t, HOUR) + HOUR && Marked(e.month, Month(t)) && MatchDay(e, t)
    ensures Marked(e.month, Month(u)) || u == MonthStart(u)
    ensures MatchDay(e, u) || u % DAY == 0
    ensures u % HOUR == 0 && u % MINUTE == 0
  {
    hide DaysBefore, MonthNumber, Marked, Day, MatchDay, MonthStart, Month, Hour;
    HourOf(t, Truncate(t, HOUR));
    NextHour(Truncate(t, HOUR));
    if Hour(u) == 0 {
      SameDayStart(t, Truncate(t, HOUR));
      DayBegins(e, t, u);
    } else {
      DayFields(e, t, u);
    }
  }

  lemma SameDayStart(t: nat, h: nat)
    requires h / DAY == t / DAY
    ensures Truncate(h, DAY) == Truncate(t, DAY)
  {
  }

  /** The loop on seconds; it jumps back at the start of a minute. */
  method SecondLoop(e: CronExpr, t0: nat, moved0: bool, ghost start: nat, ghost year: nat)
    returns (t: nat, moved: bool, retry: bool)
    requires Reached(e, start, year, t0, moved0) && t0 < YearEnd(year) && Marked(e.month, Month(t0)) &&
      MatchDay(e, t0) &&
      Marked(e.hour, Hour(t0)) && Marked(e.min, Minute(t0))
    ensures Reached(e, start, year, t, moved) && t >= t0 && (retry ==> t > t0 && t % MINUTE == 0)
    ensures !retry ==> Matches(e, t) && t < YearEnd(year)
  {
    hide Marked, MatchDay, NoMatch, YearEnd, DaysBefore, MonthNumber, MonthEnd, MonthStart, Month, Hour, Minute;
    t, moved, retry := t0, moved0, false;
    while !Marked(e.sec, Second(t))
      invariant Reached(e, start, year, t, moved) && t0 <= t < YearEnd(year)
      invariant Marked(e.month, Month(t)) && MatchDay(e, t) && Marked(e.hour, Hour(t)) && Marked(e.min, Minute(t))
      decreases YearEnd(year) - t
    {
      ghost var was := t;
      if !moved {
        moved := true;
      }
      NotHere(e, t);
      NextSecond(t);
      MinuteInYear(was, year);
      NoMatchJoin(e, start, was, was, was + 1);
      t := t + 1;
      if Second(t) == 0 {
        MinuteBegins(e, was, t);
        retry := true;
        return;
      }
      SameMinute(was, t);
      SameHour(was, t);
      DayFields(e, was, t);
    }
  }

  lemma NotHere(e: CronExpr, t: nat)
    requires !Marked(e.sec, Second(t))
    ensures NoMatch(e, t, t + 1)
  {
    hide Marked, MatchDay, Month, Hour, Minute;
  }

  lemma MinuteInYear(t: nat, year: nat)
    requires t < YearEnd(year)
    ensures t + 1 <= YearEnd(year) && (t + 1 == YearEnd(year) ==> Second(t + 1) == 0)
  {
    hide DaysBefore;
    Multiples(DaysBefore(12 * (year + 1)));
  }

  /** The same at the start of a minute. */
  lemma MinuteBegins(e: CronExpr, t: nat, u: nat)
    requires u == t + 1 && Second(u) == 0
    requires Marked(e.month, Month(t)) && MatchDay(e, t) && Marked(e.hour, Hour(t))
    ensures Settled(e, u)
  {
    hide DaysBefore, MonthNumber, Marked, Day, MatchDay, MonthStart, Month, Hour, Minute;
    assert u == Truncate(t, MINUTE) + MINUTE;
    MinuteOf(t, Truncate(t, MINUTE));
    NextMinute(Truncate(t, MINUTE));
    if u % HOUR == 0 {
      assert u == Truncate(t, HOUR) + HOUR;
      HourBegins(e, t, u);
    } else {
      SameHour(t, u);
      DayFields(e, t, u);
    }
  }

  /** `Next`, for a time whose whole seconds are now: the least second after it at which all fields match, or Never
      exactly if there is none up to the end of the year after the year of the upcoming second. */
  method Next(e: CronExpr, now: nat) returns (r: Firing)
    ensures r.At? ==> r.t > now && Matches(e, r.t) && NoMatch(e, now + 1, r.t) && Year(r.t) <= Year(now + 1) + 1
    ensures r.Never? ==> forall u: nat | u > now && Year(u) <= Year(now + 1) + 1 :: !Matches(e, u)
  {
    hide Marked, MatchDay, Matches, Settled, YearEnd, Year, Month, Hour, Minute;
    var t: nat := now + 1;
    var year := Year(t);
    var moved, retry := false, false;
    ghost var start: nat := t;
    StartsInYear(t);
    while true
      invariant Reached(e, start, year, t, moved)
      decreases YearEnd(year) - t
    {
      BeforeYearEnd(t, year);
      if Year(t) > year + 1 {
        NoneInYear(e, start, year, t);
        return Never;
      }
      t, moved, retry := MonthLoop(e, t, moved, start, year);
      if retry {
        continue;
      }
      t, moved, retry := DayLoop(e, t, moved, start, year);
      if retry {
        continue;
      }
      t, moved, retry := HourLoop(e, t, moved, start, year);
      if retry {
        continue;
      }
      t, moved, retry := MinuteLoop(e, t, moved, start, year);
      if retry {
        continue;
      }
      t, moved, retry := SecondLoop(e, t, moved, start, year);
      if retry {
        continue;
      }
      BeforeYearEnd(t, year);
      return At(t);
    }
  }

  lemma StartsInYear(t: nat)
    ensures t < YearEnd(Year(t))
  {
    BeforeYearEnd(t, Year(t));
  }

  lemma NoneInYear(e: CronExpr, start: nat, year: nat, t: nat)
    requires NoMatch(e, start, t) && t >= YearEnd(year)
    ensures forall u: nat | u >= start && Year(u) <= year + 1 :: !Matches(e, u)
  {
    hide Matches, YearEnd, Year;
    forall u: nat | u >= start && Year(u) <= year + 1
      ensures !Matches(e, u)
    {
      BeforeYearEnd(u, year);
    }
  }
}
