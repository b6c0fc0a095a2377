/** The UTC calendar of Go's `time` package, in whole seconds from January 1 of year 1 on. */
module Calendar {
  import TreeIndex

  const MINUTE := 60
  const HOUR := 3600
  const DAY := 86400

  predicate Leap(y: nat) {
    y % 4 == 0 && (y % 100 != 0 || y % 400 == 0)
  }

  /** The days of month n, counted from January of year 1. */
  function DaysIn(n: nat): (d: nat)
    ensures 28 <= d <= 31
  {
    var m := n % 12 + 1;
    if m == 2 then (if Leap(n / 12 + 1) then 29 else 28)
    else if m == 4 || m == 6 || m == 9 || m == 11 then 30
    else 31
  }

  /** The days before month n. */
  function DaysBefore(n: nat): nat {
    if n == 0 then 0 else DaysBefore(n - 1) + DaysIn(n - 1)
  }

  /** The month that day d is in, looked for from month n on. */
  function MonthFrom(d: nat, n: nat): (r: nat)
    requires DaysBefore(n) <= d
    ensures n <= r && DaysBefore(r) <= d < DaysBefore(r + 1)
    decreases d - DaysBefore(n)
  {
    if d < DaysBefore(n + 1) then n else MonthFrom(d, n + 1)
  }

  function MonthNumber(t: nat): (n: nat)
    ensures DaysBefore(n) <= t / DAY < DaysBefore(n + 1)
  {
    MonthFrom(t / DAY, 0)
  }

  function Year(t: nat): nat {
    MonthNumber(t) / 12 + 1
  }

  function Month(t: nat): (m: nat)
    ensures 1 <= m <= 12
  {
    MonthNumber(t) % 12 + 1
  }

  function Day(t: nat): (d: nat)
    ensures 1 <= d <= 31
  {
    assert DaysBefore(MonthNumber(t) + 1) == DaysBefore(MonthNumber(t)) + DaysIn(MonthNumber(t));
    t / DAY - DaysBefore(MonthNumber(t)) + 1
  }

  /** Sunday is 0; January 1 of year 1 is a Monday. */
  function Weekday(t: nat): (w: nat)
    ensures w < 7
  {
    (t / DAY + 1) % 7
  }

  function Hour(t: nat): (h: nat)
    ensures h < 24
  {
    t % DAY / HOUR
  }

  function Minute(t: nat): (m: nat)
    ensures m < 60
  {
    t % HOUR / MINUTE
  }

  function Second(t: nat): (s: nat)
    ensures s < 60
  {
    t % MINUTE
  }

  /** `time.Date` for month n: a day beyond the end of the month runs over into the next ones. */
  function Date(n: nat, day: nat, clock: nat): nat
    requires day > 0
  {
    (DaysBefore(n) + day - 1) * DAY + clock
  }

  /** `AddDate(0, months, days)` */
  function AddDate(t: nat, months: nat, days: nat): nat {
    Date(MonthNumber(t) + months, Day(t) + days, t % DAY)
  }

  /** `Truncate` for a duration of d seconds. */
  function Truncate(t: nat, d: nat): nat
    requires d > 0
  {
    t - t % d
  }

  // ----- the months -----

  lemma {:induction false} DaysGrow(a: nat, b: nat)
    requires a <= b
    ensures DaysBefore(a) + 28 * (b - a) <= DaysBefore(b)
  {
    if a < b {
      DaysGrow(a, b - 1);
    }
  }

  /** A day is in one month only. */
  lemma MonthUnique(d: nat, a: nat, b: nat)
    requires DaysBefore(a) <= d < DaysBefore(a + 1) && DaysBefore(b) <= d < DaysBefore(b + 1)
    ensures a == b
  {
    if a < b {
      DaysGrow(a + 1, b);
    } else if b < a {
      DaysGrow(b + 1, a);
    }
  }

  /** Where the month of t begins, and where the next one does. */
  function MonthStart(t: nat): nat {
    DaysBefore(MonthNumber(t)) * DAY
  }

  function MonthEnd(t: nat): nat {
    DaysBefore(MonthNumber(t) + 1) * DAY
  }

  lemma InMonth(t: nat)
    ensures MonthStart(t) <= t < MonthEnd(t)
  {
  }

  /** All of the month is in the same month. */
  lemma SameMonth(t: nat, u: nat)
    requires MonthStart(t) <= u < MonthEnd(t)
    ensures MonthNumber(u) == MonthNumber(t)
  {
    MonthUnique(u / DAY, MonthNumber(u), MonthNumber(t));
  }

  lemma SameDay(t: nat, u: nat)
    requires t / DAY == u / DAY
    ensures MonthNumber(u) == MonthNumber(t) && Day(u) == Day(t) && Weekday(u) == Weekday(t)
  {
  }

  /** The Gregorian rule: the days before year k + 1. */
  lemma {:induction false} YearDays(k: nat)
    ensures DaysBefore(12 * k) == 365 * k + k / 4 - k / 100 + k / 400
  {
    hide Leap, DaysIn;
    if k > 0 {
      YearDays(k - 1);
      YearLength(k - 1);
      LeapDays(k);
    }
  }

  lemma YearLength(k: nat)
    ensures DaysBefore(12 * k + 12) == DaysBefore(12 * k) + (if Leap(k + 1) then 366 else 365)
  {
    hide DaysBefore, DaysIn, Leap;
    var n := 12 * k;
    FourMonths(n);
    FourMonths(n + 4);
    FourMonths(n + 8);
    FourLengths(k, 0);
    FourLengths(k, 4);
    FourLengths(k, 8);
  }

  lemma FourMonths(n: nat)
    ensures DaysBefore(n + 4) == DaysBefore(n) + DaysIn(n) + DaysIn(n + 1) + DaysIn(n + 2) + DaysIn(n + 3)
  {
    hide DaysIn;
    assert DaysBefore(n + 2) == DaysBefore(n) + DaysIn(n) + DaysIn(n + 1);
  }

  lemma FourLengths(k: nat, i: nat)
    requires i == 0 || i == 4 || i == 8
    ensures var n := 12 * k + i;
      DaysIn(n) + DaysIn(n + 1) + DaysIn(n + 2) + DaysIn(n + 3) ==
        if i == 0 then (if Leap(k + 1) then 121 else 120) else if i == 4 then 123 else 122
  {
    hide Leap;
    MonthOf(k, i);
    MonthOf(k, i + 1);
    MonthOf(k, i + 2);
    MonthOf(k, i + 3);
  }

  lemma MonthOf(k: nat, i: nat)
    requires i < 12
    ensures (12 * k + i) % 12 == i && (12 * k + i) / 12 == k
  {
  }

  lemma LeapDays(k: nat)
    requires k > 0
    ensures k / 4 - k / 100 + k / 400 ==
      (k - 1) / 4 - (k - 1) / 100 + (k - 1) / 400 + if Leap(k) then 1 else 0
  {
    NextMultiple(k, 4);
    NextMultiple(k, 100);
    NextMultiple(k, 400);
    if k % 100 == 0 {
      MultipleOf(k, 4, 25);
    }
    if k % 400 == 0 {
      MultipleOf(k, 100, 4);
    }
  }

  lemma NextMultiple(k: nat, m: nat)
    requires k > 0 && m > 0
    ensures k / m == (k - 1) / m + if k % m == 0 then 1 else 0
  {
    var q, r := k / m, k % m;
    assert k == m * q + r;
    if r == 0 {
      TreeIndex.DivModUnique(k - 1, m, q - 1, m - 1);
    } else {
      TreeIndex.DivModUnique(k - 1, m, q, r - 1);
    }
  }

  lemma MultipleOf(k: nat, a: nat, b: nat)
    requires a > 0 && b > 0 && k % (a * b) == 0
    ensures k % a == 0
  {
    var q := k / (a * b);
    assert k == a * b * q;
    TreeIndex.DivModUnique(k, a, b * q, 0);
  }

  // ----- dates -----

  /** The days of an ordinary year before its month m. */
  function DaysToMonth(m: nat): nat
    requires 1 <= m <= 12
  {
    [0, 31, 59, 90, 120, 151, 181, 212, 243, 273, 304, 334][m - 1]
  }

  lemma {:induction false} MonthsBefore(k: nat, i: nat)
    requires i < 12
    ensures DaysBefore(12 * k + i) == DaysBefore(12 * k) + DaysToMonth(i + 1) + if i >= 2 && Leap(k + 1) then 1 else 0
  {
    hide Leap, DaysIn, DaysToMonth;
    FirstMonth();
    if i > 0 {
      MonthsBefore(k, i - 1);
      OneMonth(k, i - 1);
      assert DaysBefore(12 * k + i) == DaysBefore(12 * k + (i - 1)) + DaysIn(12 * k + (i - 1));
    }
  }

  lemma FirstMonth()
    ensures DaysToMonth(1) == 0
  {
  }

  lemma OneMonth(k: nat, i: nat)
    requires i < 11
    ensures DaysIn(12 * k + i) == DaysToMonth(i + 2) - DaysToMonth(i + 1) + if i == 1 && Leap(k + 1) then 1 else 0
  {
    hide Leap;
    MonthOf(k, i);
  }

  lemma MonthAndYear(t: nat)
    ensures MonthNumber(t) == 12 * (Year(t) - 1) + (Month(t) - 1) && Year(t) >= 1
  {
    hide MonthNumber;
    var n := MonthNumber(t);
    assert n == 12 * (n / 12) + n % 12;
  }

  /** The length of each month. */
  lemma MonthLength(t: nat)
    ensures var m, y, days := Month(t), Year(t), DaysBefore(MonthNumber(t) + 1) - DaysBefore(MonthNumber(t));
      && (m in {1, 3, 5, 7, 8, 10, 12} ==> days == 31) && (m in {4, 6, 9, 11} ==> days == 30)
      && (m == 2 ==> days == if y % 400 == 0 || (y % 4 == 0 && y % 100 != 0) then 29 else 28)
      && 1 <= Day(t) <= days
  {
    hide MonthNumber;
    var n := MonthNumber(t);
    assert DaysBefore(n + 1) == DaysBefore(n) + DaysIn(n);
    HundredFours(Year(t));
  }

  lemma HundredFours(y: nat)
    ensures y % 400 == 0 ==> y % 4 == 0 && y % 100 == 0
  {
    if y % 400 == 0 {
      MultipleOf(y, 4, 100);
      MultipleOf(y, 100, 4);
    }
  }

  /** A time is the days of the years before, of the months before and of the month, and the clock. */
  lemma CivilTime(t: nat)
    ensures var k, m := Year(t) - 1, Month(t);
      var days := 365 * k + k / 4 - k / 100 + k / 400 + DaysToMonth(m) + (if m > 2 && Leap(k + 1) then 1 else 0) +
        (Day(t) - 1);
      t == days * DAY + Hour(t) * HOUR + Minute(t) * MINUTE + Second(t)
  {
    hide MonthNumber, Leap, DaysBefore;
    MonthAndYear(t);
    YearDays(Year(t) - 1);
    MonthsBefore(Year(t) - 1, Month(t) - 1);
    Clock(t);
  }

  lemma Clock(t: nat)
    ensures t == t / DAY * DAY + Hour(t) * HOUR + Minute(t) * MINUTE + Second(t)
  {
    var m := t / MINUTE;
    assert t == m * MINUTE + t % MINUTE;
    var h := m / 60;
    assert m == h * 60 + m % 60;
    assert h == h / 24 * 24 + h % 24;
    TreeIndex.DivModUnique(t, HOUR, h, m % 60 * MINUTE + t % MINUTE);
    TreeIndex.DivModUnique(t, DAY, h / 24, h % 24 * HOUR + m % 60 * MINUTE + t % MINUTE);
    TreeIndex.DivModUnique(t % HOUR, MINUTE, m % 60, t % MINUTE);
    TreeIndex.DivModUnique(t % DAY, HOUR, h % 24, m % 60 * MINUTE + t % MINUTE);
  }

  /** Each day has the weekday behind that of the day before. */
  lemma NextWeekday(t: nat)
    ensures Weekday(t + DAY) == if Weekday(t) == 6 then 0 else Weekday(t) + 1
  {
    TreeIndex.DivModUnique(t + DAY, DAY, t / DAY + 1, t % DAY);
    var d := t / DAY + 1;
    var q, r := d / 7, d % 7;
    assert d == q * 7 + r;
    if r == 6 {
      TreeIndex.DivModUnique(d + 1, 7, q + 1, 0);
    } else {
      TreeIndex.DivModUnique(d + 1, 7, q, r + 1);
    }
  }

  const EPOCH := 62135596800

  /** Thursday, January 1 of 1970 */
  lemma Epoch()
    ensures Year(EPOCH) == 1970 && Month(EPOCH) == 1 && Day(EPOCH) == 1 && Weekday(EPOCH) == 4
    ensures Hour(EPOCH) == 0 && Minute(EPOCH) == 0 && Second(EPOCH) == 0
  {
    hide DaysBefore, MonthNumber;
    var n := 12 * 1969;
    YearDays(1969);
    assert EPOCH / DAY == 719162 == DaysBefore(n);
    DaysGrow(n, n + 1);
    MonthUnique(EPOCH / DAY, MonthNumber(EPOCH), n);
  }
}
