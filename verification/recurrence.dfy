/** Occurrences of planned payments (internal/wallet/recurrence.go). */
module Recurrence {
  import opened Numbers
  import opened Calendar

  /** Month stands for every unit the source's `default` branches take. */
  datatype Unit = Day | Week | Month | Year

  function AddMonthsClamped(t: Instant, n: int): Instant {
    var c := DateOf(t.day);
    var first := Instant(DayOf(c.year, c.month + n, 1), t.nanos);
    var last := DateOf(AddDate(first, 1, -1).day).dom;
    var d := if c.dom > last then last else c.dom;
    AddDate(first, 0, d - 1)
  }

  /** The `k`-th occurrence of a schedule, counted from its start. */
  function Occurrence(start: Instant, n: int, unit: Unit, k: int): Instant {
    match unit
    case Day => AddDate(start, 0, k * n)
    case Week => AddDate(start, 0, 7 * k * n)
    case Year => AddMonthsClamped(start, 12 * k * n)
    case Month => AddMonthsClamped(start, k * n)
  }

  // ----- where occurrences fall

  /** The date on day `dom` of absolute month `i`, or on its last day when it is shorter. */
  function ClampedDate(i: int, dom: int): Civil {
    Civil(i / 12, i % 12 + 1, Min(dom, MonthLength(i)))
  }

  lemma MonthEnds(i: int)
    ensures DateOf(MonthStart(i)) == ClampedDate(i, 1)
    ensures DateOf(MonthStart(i + 1) - 1) == ClampedDate(i, 31)
  {
    MonthStep(i);
    MonthOfUnique(MonthStart(i), i);
    MonthOfUnique(MonthStart(i + 1) - 1, i);
  }

  lemma ClampedDateDay(i: int, dom: int)
    requires dom >= 1
    ensures var c := ClampedDate(i, dom);
            && 12 * c.year + c.month - 1 == i
            && DayOf(c.year, c.month, c.dom) == MonthStart(i) + Min(dom, MonthLength(i)) - 1
            && DateOf(DayOf(c.year, c.month, c.dom)) == c
            && MonthOf(DayOf(c.year, c.month, c.dom)) == i
  {
    hide MonthStart;
    hide MonthLength;
    hide MonthOf;
    hide DateOf;
    var c := ClampedDate(i, dom);
    assert 12 * (i / 12) + i % 12 == i;
    DayRoundTrip(c);
    DateRoundTrip(DayOf(c.year, c.month, c.dom));
  }

  lemma ClampedIs(t: Instant, n: int)
    ensures var i := MonthOf(t.day) + n;
            AddMonthsClamped(t, n) == Instant(MonthStart(i) + Min(DateOf(t.day).dom, MonthLength(i)) - 1, t.nanos)
  {
    hide MonthStart;
    hide MonthOf;
    hide MonthLength;
    hide DateOf;
    hide AddDate;
    var i, c := MonthOf(t.day) + n, DateOf(t.day);
    DateRoundTrip(t.day);
    var first := Instant(DayOf(c.year, c.month + n, 1), t.nanos);
    assert first.day == MonthStart(i);
    MonthEnds(i);
    ClampedDateDay(i, 1);
    AddDateIs(first, 1, -1);
    AddDays(first, Min(c.dom, MonthLength(i)) - 1);
  }

  /** Adding months lands in exactly that month, at the same time of day, on the same day of
      the month or on the month's last day when it is too short. */
  lemma ClampedDay(t: Instant, n: int)
    ensures var i := MonthOf(t.day) + n;
            && AddMonthsClamped(t, n).nanos == t.nanos
            && DateOf(AddMonthsClamped(t, n).day) == ClampedDate(i, DateOf(t.day).dom)
            && MonthOf(AddMonthsClamped(t, n).day) == i
  {
    hide *;
    ClampedIs(t, n);
    ClampedDateDay(MonthOf(t.day) + n, DateOf(t.day).dom);
  }

  predicate InDays(unit: Unit) { unit.Day? || unit.Week? }

  /** One interval, in days or in months. */
  function Step(n: int, unit: Unit): int {
    match unit
    case Day => n
    case Week => 7 * n
    case Year => 12 * n
    case Month => n
  }

  lemma MulSwap(c: int, k: int, n: int)
    ensures c * k * n == c * n * k
  {
    assert c * k * n == c * (k * n);
    assert c * n * k == c * (n * k);
  }

  lemma OccurrenceIs(start: Instant, n: int, unit: Unit, k: int)
    ensures Occurrence(start, n, unit, k) ==
              if InDays(unit) then AddDate(start, 0, Step(n, unit) * k) else AddMonthsClamped(start, Step(n, unit) * k)
  {
    hide AddDate;
    hide AddMonthsClamped;
    match unit
    case Day => assert k * n == n * k;
    case Week => MulSwap(7, k, n);
    case Year => MulSwap(12, k, n);
    case Month => assert k * n == n * k;
  }

  /** Every occurrence is computed from the start: a plan on the 31st is back on the 31st after
      a short month. */
  lemma OccurrencePlace(start: Instant, n: int, unit: Unit, k: int)
    ensures var at := Occurrence(start, n, unit, k);
            && at.nanos == start.nanos
            && (InDays(unit) ==> at.day == start.day + Step(n, unit) * k)
            && (!InDays(unit) ==>
                  var i := MonthOf(start.day) + Step(n, unit) * k;
                  && MonthOf(at.day) == i
                  && DateOf(at.day) == ClampedDate(i, DateOf(start.day).dom))
  {
    hide *;
    OccurrenceIs(start, n, unit, k);
    AddDays(start, Step(n, unit) * k);
    ClampedDay(start, Step(n, unit) * k);
  }

  lemma LaterMonth(a: int, b: int)
    requires MonthOf(a) < MonthOf(b)
    ensures a < b
  {
    MonthSpan(MonthOf(a) + 1, MonthOf(b));
  }

  /** Occurrences strictly increase. */
  lemma OccurrencesIncrease(start: Instant, n: int, unit: Unit, j: int, k: int)
    requires n >= 1 && j < k
    ensures Occurrence(start, n, unit, j).day < Occurrence(start, n, unit, k).day
  {
    hide Occurrence;
    OccurrencePlace(start, n, unit, j);
    OccurrencePlace(start, n, unit, k);
    MulGap(Step(n, unit), j, k);
    if !InDays(unit) {
      hide MonthOf;
      LaterMonth(Occurrence(start, n, unit, j).day, Occurrence(start, n, unit, k).day);
    }
  }

  lemma StartIsFirst(start: Instant, n: int, unit: Unit)
    ensures Occurrence(start, n, unit, 0) == start
  {
    hide *;
    OccurrencePlace(start, n, unit, 0);
    assert Step(n, unit) * 0 == 0;
    if !InDays(unit) {
      var i := MonthOf(start.day);
      assert DateOf(start.day) == ClampedDate(i, DateOf(start.day).dom) by { OwnDate(start.day); }
      DateRoundTrip(start.day);
      DateRoundTrip(Occurrence(start, n, unit, 0).day);
    }
  }

  lemma OwnDate(day: int)
    ensures DateOf(day) == ClampedDate(MonthOf(day), DateOf(day).dom)
  {
    hide MonthStart;
    hide MonthOf;
    hide MonthLength;
  }

  // ----- the next one

  /** `k` is the least index of an occurrence strictly after `after`. */
  ghost predicate FirstAfter(start: Instant, n: int, unit: Unit, after: Instant, k: nat) {
    && Before(after, Occurrence(start, n, unit, k))
    && forall j: nat | j < k :: !Before(after, Occurrence(start, n, unit, j))
  }

  /** It is the earliest of all later occurrences, and the only such index. */
  lemma FirstAfterIsLeast(start: Instant, n: int, unit: Unit, after: Instant, k: nat, j: nat)
    requires n >= 1 && FirstAfter(start, n, unit, after, k) && Before(after, Occurrence(start, n, unit, j))
    ensures k <= j && !Before(Occurrence(start, n, unit, j), Occurrence(start, n, unit, k))
    ensures FirstAfter(start, n, unit, after, j) ==> j == k
  {
    hide Occurrence;
    if k < j {
      OccurrencesIncrease(start, n, unit, k, j);
    }
  }

  /** After one occurrence comes the next: resolving a plan step by step skips none. */
  lemma NextAfterOccurrence(start: Instant, n: int, unit: Unit, k: nat)
    requires n >= 1
    ensures FirstAfter(start, n, unit, Occurrence(start, n, unit, k), k + 1)
  {
    hide Occurrence;
    OccurrencesIncrease(start, n, unit, k, k + 1);
    forall j: nat | j < k + 1
      ensures !Before(Occurrence(start, n, unit, k), Occurrence(start, n, unit, j))
    {
      if j < k { OccurrencesIncrease(start, n, unit, j, k); }
    }
  }

  // ----- the search

  /** Whole days from `start` to `after`. */
  function ElapsedDays(start: Instant, after: Instant): int {
    after.day - start.day - if after.nanos < start.nanos then 1 else 0
  }

  function ElapsedMonths(start: Instant, after: Instant): int {
    var a, s := DateOf(after.day), DateOf(start.day);
    (a.year - s.year) * 12 + (a.month - s.month)
  }

  /** Whole intervals that fit the elapsed time do not overshoot it. */
  lemma Reached(start: Instant, n: int, unit: Unit, after: Instant, k: int)
    requires InDays(unit) ==> Step(n, unit) * k <= ElapsedDays(start, after)
    requires !InDays(unit) ==> Step(n, unit) * k < ElapsedMonths(start, after)
    ensures !Before(after, Occurrence(start, n, unit, k))
  {
    hide Occurrence;
    OccurrencePlace(start, n, unit, k);
    if !InDays(unit) {
      DateRoundTrip(start.day);
      DateRoundTrip(after.day);
      hide MonthOf;
      hide DateOf;
      LaterMonth(Occurrence(start, n, unit, k).day, after.day);
    }
  }

  /** One interval more than fits is later. */
  lemma Overtaken(start: Instant, n: int, unit: Unit, after: Instant, k: int)
    requires Step(n, unit) * k > if InDays(unit) then ElapsedDays(start, after) else ElapsedMonths(start, after)
    ensures Before(after, Occurrence(start, n, unit, k))
  {
    hide Occurrence;
    OccurrencePlace(start, n, unit, k);
    if !InDays(unit) {
      DateRoundTrip(start.day);
      DateRoundTrip(after.day);
      hide MonthOf;
      hide DateOf;
      LaterMonth(after.day, Occurrence(start, n, unit, k).day);
    }
  }

  lemma Elapsed(start: Instant, after: Instant)
    requires !Before(after, start)
    ensures ElapsedDays(start, after) >= 0 && ElapsedMonths(start, after) >= 0
  {
    DateRoundTrip(start.day);
    DateRoundTrip(after.day);
    if MonthOf(after.day) < MonthOf(start.day) {
      LaterMonth(after.day, start.day);
    }
  }

  /** `nextOccurrenceAfter`. `estimate` is the elapsed day count as the source's float64
      division yields it: possibly one too high, and far too low once the time difference
      saturates. `k` is the index found, `steps` the number of steps the search took. */
  method NextOccurrenceAfter(start: Instant, interval: int, unit: Unit, after: Instant, estimate: nat)
    returns (next: Instant, ghost k: nat, ghost steps: nat)
    requires !Before(after, start) ==> estimate <= ElapsedDays(start, after) + 1
    ensures next == Occurrence(start, Max(interval, 1), unit, k)
    ensures FirstAfter(start, Max(interval, 1), unit, after, k)
    ensures Before(after, start) ==> next == start
    ensures (InDays(unit) ==> estimate >= ElapsedDays(start, after)) ==> steps <= 2
  {
    hide Occurrence;
    hide ElapsedMonths;
    hide ElapsedDays;
    var n := interval;
    if n < 1 {
      n := 1;
    }
    StartIsFirst(start, n, unit);
    if Before(after, start) {
      return start, 0, 0;
    }
    Elapsed(start, after);
    var i: int;
    if InDays(unit) {
      var step := n;
      if unit == Week {
        step := 7 * n;
      }
      i := estimate / step - 1;
    } else {
      var months := ElapsedMonths(start, after);
      var step := n;
      if unit == Year {
        step := 12 * n;
      }
      i := months / step - 1;
    }
    if i < 0 {
      i := 0;
    }
    ghost var i0 := i;
    Estimate(start, n, unit, after, estimate, i0);
    steps := 0;
    while !Before(after, Occurrence(start, n, unit, i))
      invariant i >= i0 >= 0 && steps == i - i0
      invariant forall j: nat | j < i :: !Before(after, Occurrence(start, n, unit, j))
      invariant (InDays(unit) ==> estimate >= ElapsedDays(start, after)) ==> i <= i0 + 2
      decreases after.day - Occurrence(start, n, unit, i).day
    {
      OccurrencesIncrease(start, n, unit, i, i + 1);
      i := i + 1;
      steps := steps + 1;
    }
    return Occurrence(start, n, unit, i), i, steps;
  }

  /** The estimated index never overshoots, and an exact one is at most two short. */
  lemma Estimate(start: Instant, n: int, unit: Unit, after: Instant, estimate: nat, i: nat)
    requires n >= 1 && !Before(after, start) && estimate <= ElapsedDays(start, after) + 1
    requires i == Max(0, (if InDays(unit) then estimate else ElapsedMonths(start, after)) / Step(n, unit) - 1)
    ensures forall j: nat | j < i :: !Before(after, Occurrence(start, n, unit, j))
    ensures (InDays(unit) ==> estimate >= ElapsedDays(start, after)) ==>
              forall j: nat | j >= i + 2 :: Before(after, Occurrence(start, n, unit, j))
  {
    hide Occurrence;
    hide ElapsedMonths;
    hide ElapsedDays;
    Elapsed(start, after);
    var step, span := Step(n, unit), if InDays(unit) then estimate else ElapsedMonths(start, after);
    var q := span / step;
    assert span == step * q + span % step;
    forall j: nat | j < i
      ensures !Before(after, Occurrence(start, n, unit, j))
    {
      MulGap(step, j, q - 1);
      MulGap(step, q - 1, q);
      Reached(start, n, unit, after, j);
    }
    if InDays(unit) ==> estimate >= ElapsedDays(start, after) {
      forall j: nat | j >= i + 2
        ensures Before(after, Occurrence(start, n, unit, j))
      {
        MulOrder(step, q + 1, j);
        MulGap(step, q, q + 1);
        Overtaken(start, n, unit, after, j);
      }
    }
  }
}
