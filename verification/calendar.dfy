/** The proleptic Gregorian calendar (ISO 8601:2004, section 3.2.1) as day numbers, and the
    parts of Go's time package that the recurrence code uses. All instants are UTC. */
module Calendar {
  import opened Numbers

  /** A day number (day 0 is 1 January of year 1) and the nanoseconds since its midnight. */
  datatype Instant = Instant(day: int, nanos: nat)

  datatype Civil = Civil(year: int, month: int, dom: int)

  predicate Before(a: Instant, b: Instant) {
    a.day < b.day || (a.day == b.day && a.nanos < b.nanos)
  }

  predicate Leap(year: int) {
    year % 4 == 0 && (year % 100 != 0 || year % 400 == 0)
  }

  function YearStart(year: int): int {
    var y := year - 1;
    365 * y + y / 4 - y / 100 + y / 400
  }

  /** Years follow each other without gaps: 366 days when leap, 365 otherwise. */
  lemma YearLength(year: int)
    ensures YearStart(year + 1) - YearStart(year) == if Leap(year) then 366 else 365
  {
    var y := year - 1;
    Carry(y, 4);
    Carry(y, 100);
    Carry(y, 400);
  }

  lemma Carry(y: int, d: int)
    requires d > 1
    ensures (y + 1) / d - y / d == if (y + 1) % d == 0 then 1 else 0
  {
    var q, r := y / d, y % d;
    assert d * (q + 1) == d * q + d;
    if r + 1 == d {
      DivUnique(y + 1, d, q + 1, 0);
    } else {
      DivUnique(y + 1, d, q, r + 1);
    }
  }

  lemma DivUnique(x: int, d: int, q: int, r: int)
    requires d > 0 && 0 <= r < d && x == d * q + r
    ensures x / d == q && x % d == r
  {
    var p, s := x / d, x % d;
    assert x == d * p + s && 0 <= s < d;
    if p > q {
      MulGap(d, q, p);
    } else if p < q {
      MulGap(d, p, q);
    }
  }

  /** Days of month `m` (0 for January) before it starts, in its year. */
  function DaysBefore(m: int, leap: bool): int
    requires 0 <= m < 12
  {
    [0, 31, 59, 90, 120, 151, 181, 212, 243, 273, 304, 334][m] + if leap && m >= 2 then 1 else 0
  }

  /** First day of an absolute month: 12 * year + month - 1. */
  function MonthStart(i: int): int {
    YearStart(i / 12) + DaysBefore(i % 12, Leap(i / 12))
  }

  function MonthLength(i: int): (r: int)
    ensures 28 <= r <= 31
  {
    var m := i % 12;
    if m == 1 then (if Leap(i / 12) then 29 else 28)
    else if m == 3 || m == 5 || m == 8 || m == 10 then 30
    else 31
  }

  /** Months follow each other without gaps. */
  lemma MonthStep(i: int)
    ensures MonthStart(i + 1) == MonthStart(i) + MonthLength(i)
  {
    var y, m := i / 12, i % 12;
    if m < 11 {
      DivUnique(i + 1, 12, y, m + 1);
    } else {
      DivUnique(i + 1, 12, y + 1, 0);
      hide Leap;
      YearLength(y);
    }
  }

  lemma {:induction false} MonthSpan(i: int, j: int)
    requires i <= j
    ensures MonthStart(i) + 28 * (j - i) <= MonthStart(j) <= MonthStart(i) + 31 * (j - i)
    decreases j - i
  {
    if i < j {
      hide MonthStart;
      MonthStep(j - 1);
      MonthSpan(i, j - 1);
    }
  }

  /** A month not after `day` to search from. */
  function EarlyMonth(day: int): (i: int)
    ensures MonthStart(i) <= day
  {
    assert MonthStart(12) == 0;
    hide MonthStart;
    if day >= 0 then 12
    else
      var low := 12 - (27 - day) / 28;
      MonthSpan(low, 12);
      low
  }

  /** The absolute month a day lies in. */
  function MonthOf(day: int): (i: int)
    ensures MonthStart(i) <= day < MonthStart(i + 1)
  {
    hide *;
    SearchMonth(EarlyMonth(day), day)
  }

  function SearchMonth(i: int, day: int): (r: int)
    requires MonthStart(i) <= day
    ensures MonthStart(r) <= day < MonthStart(r + 1)
    decreases day - MonthStart(i)
  {
    MonthStep(i);
    hide MonthStart;
    if day < MonthStart(i + 1) then i else SearchMonth(i + 1, day)
  }

  lemma MonthOfUnique(day: int, i: int)
    requires MonthStart(i) <= day < MonthStart(i + 1)
    ensures MonthOf(day) == i
  {
    var r := MonthOf(day);
    hide MonthOf;
    hide MonthStart;
    if r < i {
      MonthSpan(r + 1, i);
    } else if i < r {
      MonthSpan(i + 1, r);
    }
  }

  // ----- Go's time package

  /** `t.Date()` */
  function DateOf(day: int): (c: Civil)
    ensures 1 <= c.month <= 12 && 1 <= c.dom <= MonthLength(12 * c.year + c.month - 1)
  {
    var i := MonthOf(day);
    MonthStep(i);
    hide MonthStart;
    hide MonthOf;
    hide MonthLength;
    assert 12 * (i / 12) + i % 12 == i;
    Civil(i / 12, i % 12 + 1, day - MonthStart(i) + 1)
  }

  /** `time.Date`: months and days out of range spill over. */
  function DayOf(year: int, month: int, dom: int): int {
    MonthStart(12 * year + month - 1) + dom - 1
  }

  /** Reading a day's date and building it again gives the day back. */
  lemma DateRoundTrip(day: int)
    ensures var c := DateOf(day); DayOf(c.year, c.month, c.dom) == day
    ensures var c := DateOf(day); 12 * c.year + c.month - 1 == MonthOf(day)
  {
    hide MonthStart;
    hide MonthOf;
    hide MonthLength;
    var i := MonthOf(day);
    assert 12 * (i / 12) + i % 12 == i;
  }

  /** Every date of the calendar survives becoming a day number. */
  lemma DayRoundTrip(c: Civil)
    requires 1 <= c.month <= 12 && 1 <= c.dom <= MonthLength(12 * c.year + c.month - 1)
    ensures DateOf(DayOf(c.year, c.month, c.dom)) == c
  {
    hide MonthStart;
    hide MonthOf;
    hide MonthLength;
    var i := 12 * c.year + c.month - 1;
    DivUnique(i, 12, c.year, c.month - 1);
    MonthStep(i);
    MonthOfUnique(DayOf(c.year, c.month, c.dom), i);
  }

  /** `t.AddDate(0, months, days)` */
  function AddDate(t: Instant, months: int, days: int): Instant {
    var c := DateOf(t.day);
    Instant(DayOf(c.year, c.month + months, c.dom + days), t.nanos)
  }

  lemma AddDateIs(t: Instant, months: int, days: int)
    ensures AddDate(t, months, days) == Instant(MonthStart(MonthOf(t.day) + months) + DateOf(t.day).dom + days - 1, t.nanos)
  {
    DateRoundTrip(t.day);
    hide DateOf;
    hide MonthOf;
    hide MonthStart;
  }

  lemma AddDays(t: Instant, days: int)
    ensures AddDate(t, 0, days) == Instant(t.day + days, t.nanos)
  {
    hide DateOf;
    hide MonthStart;
    DateRoundTrip(t.day);
  }
}
