/** How the worker's dates differ from planned payments': the SQL series adds the step to its last
    element, planned payments count from the start. */
module RecurringDrift {
  import opened Numbers
  import opened Calendar
  import opened Recurrence
  import opened Recurring

  /** Months, or days, in `k` steps. */
  function Span(frequency: Frequency, k: int): int {
    match frequency case Daily => k case Weekly => 7 * k case Monthly => k case Yearly => 12 * k
  }

  predicate Clamping(frequency: Frequency) { frequency.Monthly? || frequency.Yearly? }

  /** The day of the month left after `k` clamping steps. */
  function Worn(dom: int, month: int, frequency: Frequency, k: nat): int {
    if k == 0 then dom else Min(Worn(dom, month, frequency, k - 1), MonthLength(month + Span(frequency, k)))
  }

  /** Every short month on the way lowers the day for good. */
  lemma {:induction false} RepeatedClamped(t: Instant, frequency: Frequency, k: nat)
    requires Clamping(frequency)
    ensures var at := Repeated(t, frequency, k);
            && MonthOf(at.day) == MonthOf(t.day) + Span(frequency, k) && at.nanos == t.nanos
            && DateOf(at.day).dom == Worn(DateOf(t.day).dom, MonthOf(t.day), frequency, k)
  {
    hide *;
    Unfolded(t, frequency, k);
    if k > 0 {
      RepeatedClamped(t, frequency, k - 1);
      ClampedDay(Repeated(t, frequency, k - 1), Span(frequency, 1));
      DomOf(MonthOf(t.day) + Span(frequency, k), Worn(DateOf(t.day).dom, MonthOf(t.day), frequency, k - 1));
    }
  }

  lemma Unfolded(t: Instant, frequency: Frequency, k: nat)
    requires Clamping(frequency)
    ensures Span(frequency, 0) == 0 && Span(frequency, k) == Span(frequency, k - 1) + Span(frequency, 1)
    ensures k == 0 ==> Repeated(t, frequency, k) == t && forall dom, month :: Worn(dom, month, frequency, k) == dom
    ensures k > 0 ==> Repeated(t, frequency, k) == AddMonthsClamped(Repeated(t, frequency, k - 1), Span(frequency, 1))
    ensures k > 0 ==> forall dom, month ::
              Worn(dom, month, frequency, k) == Min(Worn(dom, month, frequency, k - 1), MonthLength(month + Span(frequency, k)))
  {
    hide AddMonthsClamped;
    hide MonthLength;
  }

  lemma DomOf(i: int, dom: int)
    ensures ClampedDate(i, dom).dom == Min(dom, MonthLength(i))
  {
  }

  /** The two agree on the k-th date exactly when no date before was in a shorter month than
      needed. */
  lemma {:induction false} DriftExactly(t: Instant, frequency: Frequency, k: nat)
    requires Clamping(frequency)
    ensures Repeated(t, frequency, k) == Occurrence(t, 1, UnitOf(frequency), k) <==>
              var month := MonthOf(t.day);
              Worn(DateOf(t.day).dom, month, frequency, k) == Min(DateOf(t.day).dom, MonthLength(month + Span(frequency, k)))
  {
    StepSpan(frequency, k);
    hide *;
    RepeatedClamped(t, frequency, k);
    OccurrencePlace(t, 1, UnitOf(frequency), k);
    DomOf(MonthOf(t.day) + Span(frequency, k), DateOf(t.day).dom);
    SameMonth(Repeated(t, frequency, k).day, Occurrence(t, 1, UnitOf(frequency), k).day);
  }

  lemma StepSpan(frequency: Frequency, k: nat)
    ensures Step(1, UnitOf(frequency)) * k == Span(frequency, k) && (InDays(UnitOf(frequency)) <==> !Clamping(frequency))
  {
  }

  lemma SameMonth(a: int, b: int)
    requires MonthOf(a) == MonthOf(b)
    ensures a == b <==> DateOf(a).dom == DateOf(b).dom
  {
    hide MonthOf;
    hide MonthStart;
  }

  lemma {:induction false} WornAtMost(dom: int, month: int, frequency: Frequency, j: nat, k: nat)
    requires 1 <= j <= k
    ensures Worn(dom, month, frequency, k) <= MonthLength(month + Span(frequency, j)) && Worn(dom, month, frequency, k) <= dom
    decreases k
  {
    hide MonthLength;
    hide Span;
    if j < k {
      WornAtMost(dom, month, frequency, j, k - 1);
    } else if k > 1 {
      WornAtMost(dom, month, frequency, 1, k - 1);
    }
  }

  /** A day that every month on the way has is kept. */
  lemma {:induction false} WornNever(dom: int, month: int, frequency: Frequency, k: nat)
    requires forall j | 1 <= j <= k :: dom <= MonthLength(month + Span(frequency, j))
    ensures Worn(dom, month, frequency, k) == dom
  {
    hide MonthLength;
    hide Span;
    if k > 0 { WornNever(dom, month, frequency, k - 1); }
  }

  // ----- schedules that never drift

  /** The starting dates whose day of the month every later date of the schedule has. */
  predicate Steady(t: Instant, frequency: Frequency) {
    var c := DateOf(t.day);
    && (frequency.Monthly? ==> c.dom <= 28)
    && (frequency.Yearly? ==> !(c.month == 2 && c.dom == 29))
  }

  /** A schedule keeps the dates of the same planned payment forever, except a monthly one from
      after the 28th and a yearly one from 29 February. */
  lemma {:induction false} NeverDriftsIff(t: Instant, frequency: Frequency)
    ensures (forall k: nat :: Repeated(t, frequency, k) == Occurrence(t, 1, UnitOf(frequency), k)) <==> Steady(t, frequency)
  {
    if Steady(t, frequency) {
      forall k: nat
        ensures Repeated(t, frequency, k) == Occurrence(t, 1, UnitOf(frequency), k)
      {
        hide *;
        if Clamping(frequency) { SteadyStays(t, frequency, k); } else { DaysStay(t, frequency, k); }
      }
    } else {
      hide *;
      var k := UnsteadyDrifts(t, frequency);
    }
  }

  lemma {:induction false} DaysStay(t: Instant, frequency: Frequency, k: nat)
    requires !Clamping(frequency)
    ensures Repeated(t, frequency, k) == Occurrence(t, 1, UnitOf(frequency), k)
  {
    StepSpan(frequency, k);
    OccurrencePlace(t, 1, UnitOf(frequency), k);
    hide Occurrence;
    hide AddDate;
    if k > 0 {
      DaysStay(t, frequency, k - 1);
      StepSpan(frequency, k - 1);
      OccurrencePlace(t, 1, UnitOf(frequency), k - 1);
      AddDays(Repeated(t, frequency, k - 1), Span(frequency, 1));
    }
  }

  lemma SteadyMonths(t: Instant, frequency: Frequency, j: nat)
    requires Clamping(frequency) && Steady(t, frequency)
    ensures DateOf(t.day).dom <= MonthLength(MonthOf(t.day) + Span(frequency, j))
  {
    DateRoundTrip(t.day);
    hide DateOf;
    hide MonthOf;
    if frequency.Yearly? {
      SameMonthOfYear(MonthOf(t.day), j);
    }
  }

  /** Only February changes its length from year to year. */
  lemma SameMonthOfYear(month: int, j: int)
    ensures (month + 12 * j) % 12 == month % 12 && (month + 12 * j) / 12 == month / 12 + j
    ensures month % 12 != 1 ==> MonthLength(month + 12 * j) == MonthLength(month)
  {
    DivUnique(month + 12 * j, 12, month / 12 + j, month % 12);
  }

  lemma {:induction false} SteadyStays(t: Instant, frequency: Frequency, k: nat)
    requires Clamping(frequency) && Steady(t, frequency)
    ensures Repeated(t, frequency, k) == Occurrence(t, 1, UnitOf(frequency), k)
  {
    hide *;
    DriftExactly(t, frequency, k);
    forall j | 1 <= j <= k
      ensures DateOf(t.day).dom <= MonthLength(MonthOf(t.day) + Span(frequency, j))
    {
      SteadyMonths(t, frequency, j);
    }
    SteadyMonths(t, frequency, k);
    WornNever(DateOf(t.day).dom, MonthOf(t.day), frequency, k);
    MinLeft(DateOf(t.day).dom, MonthLength(MonthOf(t.day) + Span(frequency, k)));
  }

  lemma MinLeft(a: int, b: int)
    requires a <= b
    ensures Min(a, b) == a
  {
  }

  lemma NextShortFebruary(month: int) returns (february: int)
    ensures february > month && february % 12 == 1 && MonthLength(february) == 28 && MonthLength(february + 1) == 31
  {
    var y := month / 12 + 1;
    if Leap(y) { y := y + 1; }
    february := 12 * y + 1;
    DivUnique(february, 12, y, 1);
    DivUnique(february + 1, 12, y, 2);
  }

  /** From a 29 February, the next one four or eight years on, after a February of 28 days. */
  lemma NextLongFebruary(month: int) returns (k: nat)
    requires month % 12 == 1 && Leap(month / 12)
    ensures k > 1 && MonthLength(month + 12 * k) == 29 && MonthLength(month + 12) == 28
  {
    var y := month / 12;
    SameMonthOfYear(month, 1);
    k := if Leap(y + 4) then 4 else 8;
    LeapCycle(y);
    SameMonthOfYear(month, k);
  }

  lemma LeapCycle(y: int)
    requires Leap(y)
    ensures !Leap(y + 1) && (Leap(y + 4) || Leap(y + 8))
  {
  }

  lemma UnsteadyDrifts(t: Instant, frequency: Frequency) returns (k: nat)
    requires !Steady(t, frequency)
    ensures Repeated(t, frequency, k) != Occurrence(t, 1, UnitOf(frequency), k)
  {
    hide Repeated;
    hide Occurrence;
    DateRoundTrip(t.day);
    hide MonthOf;
    hide DateOf;
    var dom, month := DateOf(t.day).dom, MonthOf(t.day);
    if frequency.Monthly? {
      var february := NextShortFebruary(month);
      k := february + 1 - month;
      DriftExactly(t, frequency, k);
      hide MonthLength;
      WornAtMost(dom, month, frequency, k - 1, k);
    } else {
      k := LeapDayDrifts(t);
    }
  }

  lemma LeapDayDrifts(t: Instant) returns (k: nat)
    requires DateOf(t.day).month == 2 && DateOf(t.day).dom == 29
    ensures Repeated(t, Yearly, k) != Occurrence(t, 1, Year, k)
  {
    hide Repeated;
    hide Occurrence;
    DateRoundTrip(t.day);
    hide DateOf;
    hide MonthOf;
    var month := MonthOf(t.day);
    DivUnique(month, 12, DateOf(t.day).year, 1);
    k := NextLongFebruary(month);
    DriftExactly(t, Yearly, k);
    WornAtMost(29, month, Yearly, 1, k);
  }
}
