/** The recurring-expense worker (internal/recurring/handlers.go `RunDue`, internal/db/recurring.sql.go). */
module Recurring {
  import opened Entities
  import opened Numbers
  import opened Options
  import opened Calendar
  import opened Recurrence
  import opened RecurringSplits

  type Id = nat

  datatype Frequency = Daily | Weekly | Monthly | Yearly

  /** recurring_expenses.amount is a BIGINT with CHECK (amount > 0). */
  type Amount = x: int | 0 < x < TWO_63 witness 1

  datatype Plan = Plan(group: nat, amount: Amount, mode: Mode, defs: seq<Def>, paidBy: UserId, description: string)

  datatype Schedule = Schedule(plan: Plan, frequency: Frequency, active: bool, nextRun: Instant, lastRun: Option<Instant>)

  /** An instance, with its rows and the schedule it came from. */
  datatype Expense = Expense(origin: Id, plan: Plan, date: int, rows: seq<SplitRow>)

  // ----- occurrences in SQL

  /** timestamptz + step */
  function Later(t: Instant, frequency: Frequency): Instant {
    match frequency
    case Daily => AddDate(t, 0, 1)
    case Weekly => AddDate(t, 0, 7)
    case Monthly => AddMonthsClamped(t, 1)
    case Yearly => AddMonthsClamped(t, 12)
  }

  function UnitOf(frequency: Frequency): Unit {
    match frequency case Daily => Unit.Day case Weekly => Week case Monthly => Month case Yearly => Year
  }

  lemma LaterIsLater(t: Instant, frequency: Frequency)
    ensures t.day < Later(t, frequency).day && Later(t, frequency).nanos == t.nanos
  {
    hide *;
    var unit := UnitOf(frequency);
    LaterIsOccurrence(t, frequency);
    StartIsFirst(t, 1, unit);
    OccurrencesIncrease(t, 1, unit, 0, 1);
    OccurrencePlace(t, 1, unit, 1);
  }

  lemma LaterIsOccurrence(t: Instant, frequency: Frequency)
    ensures Later(t, frequency) == Occurrence(t, 1, UnitOf(frequency), 1)
  {
    hide AddDate;
    hide AddMonthsClamped;
  }

  /** max(generate_series(t, now, step)): the series adds the step to its last element. */
  function LatestOccurrence(t: Instant, now: Instant, frequency: Frequency): (r: Instant)
    requires !Before(now, t)
    ensures !Before(now, r) && Before(now, Later(r, frequency))
    decreases now.day - t.day
  {
    hide Later;
    LaterIsLater(t, frequency);
    if Before(now, Later(t, frequency)) then t else LatestOccurrence(Later(t, frequency), now, frequency)
  }

  function Repeated(t: Instant, frequency: Frequency, k: nat): Instant {
    if k == 0 then t else Later(Repeated(t, frequency, k - 1), frequency)
  }

  /** The latest occurrence is one of the series, and the series has no later one up to now. */
  lemma {:induction false} LatestIsRepeated(t: Instant, now: Instant, frequency: Frequency) returns (k: nat)
    requires !Before(now, t)
    ensures LatestOccurrence(t, now, frequency) == Repeated(t, frequency, k)
    ensures forall j: nat :: j <= k <==> !Before(now, Repeated(t, frequency, j))
    decreases now.day - t.day
  {
    hide Later;
    LaterIsLater(t, frequency);
    if Before(now, Later(t, frequency)) {
      k := 0;
      forall j: nat
        ensures j <= 0 <==> !Before(now, Repeated(t, frequency, j))
      {
        if j > 0 { RepeatedShift(t, frequency, j - 1); RepeatedGrows(Later(t, frequency), frequency, j - 1); }
      }
    } else {
      var i := LatestIsRepeated(Later(t, frequency), now, frequency);
      k := i + 1;
      RepeatedShift(t, frequency, i);
      forall j: nat
        ensures j <= k <==> !Before(now, Repeated(t, frequency, j))
      {
        if j > 0 { RepeatedShift(t, frequency, j - 1); }
      }
    }
  }

  lemma {:induction false} RepeatedShift(t: Instant, frequency: Frequency, k: nat)
    ensures Repeated(t, frequency, k + 1) == Repeated(Later(t, frequency), frequency, k)
  {
    hide Later;
    if k > 0 { RepeatedShift(t, frequency, k - 1); }
  }

  lemma {:induction false} RepeatedGrows(t: Instant, frequency: Frequency, k: nat)
    ensures t.day <= Repeated(t, frequency, k).day && Repeated(t, frequency, k).nanos == t.nanos
  {
    hide Later;
    if k > 0 {
      RepeatedGrows(t, frequency, k - 1);
      LaterIsLater(Repeated(t, frequency, k - 1), frequency);
    }
  }

  // ----- one schedule

  predicate Due(s: Schedule, now: Instant) { s.active && !Before(now, s.nextRun) }

  function RunAt(s: Schedule, now: Instant): Instant
    requires Due(s, now)
  {
    LatestOccurrence(s.nextRun, now, s.frequency)
  }

  /** The schedule as the claim leaves it. */
  function Claimed(s: Schedule, now: Instant): (r: Schedule)
    requires Due(s, now)
    ensures !Due(r, now)
  {
    var at := RunAt(s, now);
    s.(lastRun := Some(at), nextRun := Later(at, s.frequency))
  }

  /** A due schedule moves on: it last ran at the k-th repetition of its next run, the latest up
      to now, and is to run next at the one after that; nothing else about it changes. */
  ghost predicate MovedOn(s: Schedule, s': Schedule, now: Instant, k: nat) {
    var at, next := Repeated(s.nextRun, s.frequency, k), Repeated(s.nextRun, s.frequency, k + 1);
    && s' == Schedule(s.plan, s.frequency, s.active, next, Some(at))
    && s.active && !Before(now, at) && Before(now, next)
    && forall j: nat :: j <= k <==> !Before(now, Repeated(s.nextRun, s.frequency, j))
  }

  /** What claiming a schedule makes of it. */
  lemma ClaimMeans(s: Schedule, now: Instant) returns (k: nat)
    requires Due(s, now)
    ensures MovedOn(s, Claimed(s, now), now, k) && RunAt(s, now) == Repeated(s.nextRun, s.frequency, k)
  {
    k := LatestIsRepeated(s.nextRun, now, s.frequency);
    hide Later;
    hide Before;
    assert Repeated(s.nextRun, s.frequency, k + 1) == Later(Repeated(s.nextRun, s.frequency, k), s.frequency);
  }

  lemma {:induction false} RepeatedFrom(t: Instant, frequency: Frequency, i: nat, j: nat)
    ensures Repeated(Repeated(t, frequency, i), frequency, j) == Repeated(t, frequency, i + j)
  {
    hide Later;
    if j > 0 { RepeatedFrom(t, frequency, i, j - 1); }
  }

  /** Claimed twice, a schedule goes on where it was: the second time it runs at an occurrence of
      the same series after the first one chosen, the very next if the worker comes before the
      one after that. */
  lemma {:induction false} SuccessiveClaims(s: Schedule, s1: Schedule, s2: Schedule, now: Instant, later: Instant, k: nat, l: nat)
    requires MovedOn(s, s1, now, k) && MovedOn(s1, s2, later, l)
    ensures s2.lastRun == Some(Repeated(s.nextRun, s.frequency, k + 1 + l))
    ensures l == 0 <==> Before(later, Repeated(s.nextRun, s.frequency, k + 2))
  {
    hide Repeated;
    hide Before;
    RepeatedFrom(s.nextRun, s.frequency, k + 1, l);
    RepeatedFrom(s.nextRun, s.frequency, k + 1, 1);
    assert 1 <= l <==> !Before(later, Repeated(s1.nextRun, s1.frequency, 1));
  }

  function Definitions(plan: Plan, members: seq<UserId>): seq<Def> {
    if plan.defs == [] then OfMembers(members) else plan.defs
  }

  /** The instance a run makes of the schedule. */
  function Instance(id: Id, s: Schedule, now: Instant, members: nat -> seq<UserId>): Option<Expense>
    requires Due(s, now)
  {
    var rows := SplitRows(s.plan.amount, s.plan.mode, Definitions(s.plan, members(s.plan.group)));
    if rows.None? then None
    else Some(Expense(id, s.plan.(description := s.plan.description + " (recurring)"), RunAt(s, now).day, rows.value))
  }

  /** An EQUAL schedule naming someone who is not in the users table gets no instance, ever. */
  lemma UnknownUserNeverRuns(id: Id, s: Schedule, now: Instant, members: nat -> seq<UserId>)
    requires Due(s, now) && s.plan.mode == EQUAL && NamesUnknown(s.plan.defs)
    ensures Instance(id, s, now, members).None?
  {
    UnknownUserFails(s.plan.amount, s.plan.defs);
    hide SplitRows;
    hide LatestOccurrence;
  }

  // ----- the worker

  /** The calls of one iteration that may fail. */
  datatype Stage = Begin | Claim | Members | InsertExpense | Splits | Activity | Commit

  /** Refused: the call did nothing; Lost: a commit took effect although it reported an error. */
  datatype Fault = NoFault | Refused | Lost

  type Schedules = map<Id, Schedule>

  function DueIds(schedules: Schedules, now: Instant, failed: set<Id>): set<Id> {
    set id | id in schedules && Due(schedules[id], now) && id !in failed
  }

  function Elements(s: seq<Id>): set<Id> { set x | x in s }

  /** The instances of one schedule. */
  function Made(expenses: seq<Expense>, id: Id): seq<Expense> {
    if expenses == [] then []
    else
      var e := expenses[|expenses| - 1];
      Made(expenses[..|expenses| - 1], id) + if e.origin == id then [e] else []
  }

  /** A schedule is as before and got no instance, or it was due, moved past now, and got
      exactly one: the one dated on its latest occurrence. */
  ghost predicate Ran(id: Id, s: Schedule, s': Schedule, made: seq<Expense>, now: Instant, members: nat -> seq<UserId>) {
    || (s' == s && made == [])
    || (Due(s, now) && s' == Claimed(s, now) && |made| == 1 && Instance(id, s, now, members) == Some(made[0]))
  }

  /** How the tables before and after a run relate. */
  ghost predicate RunOf(before: Schedules, after: Schedules, news: seq<Expense>, now: Instant,
                        members: nat -> seq<UserId>) {
    && after.Keys == before.Keys
    && (forall i | 0 <= i < |news| :: news[i].origin in before)
    && forall id | id in before :: Ran(id, before[id], after[id], Made(news, id), now, members)
  }

  /** What a run with this clock makes of a plan's definitions, or of the members without any. */
  ghost predicate Split(plan: Plan, members: nat -> seq<UserId>, rows: Option<seq<SplitRow>>) {
    && (plan.defs != [] ==> rows == SplitRows(plan.amount, plan.mode, plan.defs))
    && (plan.defs == [] ==> rows == SplitRows(plan.amount, plan.mode, OfMembers(members(plan.group))))
  }

  /** The one instance `e` of schedule `id`, on the occurrence the schedule moved on from. */
  ghost predicate RanOn(id: Id, s: Schedule, s': Schedule, e: Expense, now: Instant, members: nat -> seq<UserId>, k: nat) {
    && MovedOn(s, s', now, k)
    && e.origin == id && e.date == Repeated(s.nextRun, s.frequency, k).day
    && e.plan == Plan(s.plan.group, s.plan.amount, s.plan.mode, s.plan.defs, s.plan.paidBy, s.plan.description + " (recurring)")
    && Split(s.plan, members, Some(e.rows))
  }

  /** A schedule stays as it was, without an instance, or it moves on with exactly one. */
  ghost predicate StaysOrRuns(id: Id, s: Schedule, s': Schedule, made: seq<Expense>, now: Instant, members: nat -> seq<UserId>) {
    || (s' == s && made == [])
    || (|made| == 1 && exists k: nat :: RanOn(id, s, s', made[0], now, members, k))
  }

  lemma RanMeans(id: Id, s: Schedule, s': Schedule, made: seq<Expense>, now: Instant, members: nat -> seq<UserId>)
    requires Ran(id, s, s', made, now, members)
    ensures StaysOrRuns(id, s, s', made, now, members)
  {
    if !(s' == s && made == []) {
      var k := ClaimMeans(s, now);
      hide MovedOn;
      hide RunAt;
      hide SplitRows;
      hide Due;
      hide Claimed;
      hide Repeated;
      assert RanOn(id, s, s', made[0], now, members, k);
    }
  }

  ghost predicate AllStayOrRun(before: Schedules, after: Schedules, news: seq<Expense>, now: Instant, members: nat -> seq<UserId>) {
    forall id | id in before :: id in after && StaysOrRuns(id, before[id], after[id], Made(news, id), now, members)
  }

  lemma RunOfMeans(before: Schedules, after: Schedules, news: seq<Expense>, now: Instant, members: nat -> seq<UserId>)
    requires RunOf(before, after, news, now, members)
    ensures AllStayOrRun(before, after, news, now, members)
  {
    hide Ran;
    hide StaysOrRuns;
    forall id | id in before
      ensures id in after && StaysOrRuns(id, before[id], after[id], Made(news, id), now, members)
    {
      RanMeans(id, before[id], after[id], Made(news, id), now, members);
    }
  }

  /** Every id on the list belongs to a due schedule whose rows cannot be stored. */
  ghost predicate AllUnsplittable(before: Schedules, list: seq<Id>, now: Instant, members: nat -> seq<UserId>) {
    forall id | id in list :: id in before && Due(before[id], now) && Split(before[id].plan, members, None)
  }

  lemma BrokenMeans(before: Schedules, list: seq<Id>, now: Instant, members: nat -> seq<UserId>)
    requires OnlyBroken(before, list, now, members)
    ensures AllUnsplittable(before, list, now, members)
  {
    hide SplitRows;
    hide RunAt;
  }

  lemma RunOfMore(before: Schedules, mid: Schedules, news: seq<Expense>, id: Id, e: Expense, now: Instant,
                  members: nat -> seq<UserId>)
    requires RunOf(before, mid, news, now, members)
    requires id in mid && Due(mid[id], now) && Instance(id, mid[id], now, members) == Some(e)
    ensures RunOf(before, mid[id := Claimed(mid[id], now)], news + [e], now, members)
  {
    hide RunAt;
    hide SplitRows;
    hide Definitions;
    hide Later;
    hide Before;
    var after := mid[id := Claimed(mid[id], now)];
    assert e.origin == id && (news + [e])[..|news|] == news;
    assert Ran(id, before[id], mid[id], Made(news, id), now, members);
    assert Made(news, id) == [] && mid[id] == before[id];
    assert Ran(id, before[id], after[id], Made(news + [e], id), now, members);
    hide Ran;
    hide Due;
    hide Claimed;
    hide Instance;
  }

  function MadeNow(id: Id, s: Schedule, now: Instant, members: nat -> seq<UserId>): seq<Expense>
    requires Due(s, now)
  {
    var e := Instance(id, s, now, members);
    if e.Some? then [e.value] else []
  }

  lemma MadeNowIs(id: Id, s: Schedule, now: Instant, members: nat -> seq<UserId>)
    requires Due(s, now)
    ensures Instance(id, s, now, members).Some? ==> MadeNow(id, s, now, members) == [Instance(id, s, now, members).value]
    ensures Instance(id, s, now, members).None? ==> MadeNow(id, s, now, members) == []
  {
  }

  lemma MinNextRun(ids: set<Id>, schedules: Schedules) returns (id: Id)
    requires ids != {} && forall x | x in ids :: x in schedules
    ensures id in ids && forall x | x in ids :: !Before(schedules[x].nextRun, schedules[id].nextRun)
    decreases |ids|
  {
    var y :| y in ids;
    id := y;
    if ids != {y} {
      assert ids == ids - {y} + {y};
      var m := MinNextRun(ids - {y}, schedules);
      id := if Before(schedules[m].nextRun, schedules[y].nextRun) then m else y;
      assert forall x | x in ids :: x == y || x in ids - {y};
    }
  }

  /** What a run knows of its schedules: unchanged and due ones it left behind all failed. */
  ghost predicate Settled(before: Schedules, after: Schedules, failed: set<Id>, now: Instant) {
    forall id | id in before && Due(before[id], now) && id in after && after[id] == before[id] :: id in failed
  }

  /** Every id on the list was due and has definitions its split mode cannot store. */
  ghost predicate OnlyBroken(before: Schedules, list: seq<Id>, now: Instant, members: nat -> seq<UserId>) {
    forall id | id in list :: id in before && Due(before[id], now) && Instance(id, before[id], now, members).None?
  }

  lemma StartOfRun(before: Schedules, now: Instant, members: nat -> seq<UserId>)
    ensures RunOf(before, before, [], now, members) && OnlyBroken(before, [], now, members)
  {
  }

  lemma NoneLeft(before: Schedules, after: Schedules, list: seq<Id>, now: Instant)
    requires DueIds(after, now, Elements(list)) == {}
    ensures Settled(before, after, Elements(list), now)
  {
    forall id | id in before && Due(before[id], now) && id in after && after[id] == before[id]
      ensures id in Elements(list)
    {
      assert id !in DueIds(after, now, Elements(list));
    }
  }

  lemma Claimable(before: Schedules, mid: Schedules, news: seq<Expense>, list: seq<Id>, id: Id, now: Instant,
                  members: nat -> seq<UserId>)
    requires RunOf(before, mid, news, now, members) && id in DueIds(mid, now, Elements(list))
    ensures id in before && id in mid && mid[id] == before[id] && Due(mid[id], now) && id !in list
  {
    assert Ran(id, before[id], mid[id], Made(news, id), now, members);
    hide Instance;
    hide RunAt;
    hide Later;
  }

  lemma FailedGrows(mid: Schedules, after: Schedules, list: seq<Id>, id: Id, now: Instant)
    requires id in DueIds(mid, now, Elements(list)) && after.Keys == mid.Keys
    requires forall x | x in mid :: after[x] == mid[x] || !Due(after[x], now)
    ensures DueIds(after, now, Elements(list + [id])) < DueIds(mid, now, Elements(list))
  {
    assert list <= list + [id];
    assert id in list + [id];
  }

  lemma ClaimedShrinks(mid: Schedules, after: Schedules, list: seq<Id>, id: Id, now: Instant)
    requires id in DueIds(mid, now, Elements(list))
    requires after == mid[id := Claimed(mid[id], now)]
    ensures DueIds(after, now, Elements(list)) < DueIds(mid, now, Elements(list))
  {
    hide RunAt;
    hide Later;
  }

  /** One iteration keeps the tables related and brings the run closer to its end. */
  lemma Progressed(before: Schedules, saved: Schedules, after: Schedules, news: seq<Expense>, more: seq<Expense>,
                   list: seq<Id>, bad: bool, id: Id, now: Instant, members: nat -> seq<UserId>)
    requires RunOf(before, saved, news, now, members) && id in DueIds(saved, now, Elements(list))
    requires id in saved && Due(saved[id], now)
    requires if more == [] then after == saved && bad
             else after == saved[id := Claimed(saved[id], now)] && more == MadeNow(id, saved[id], now, members)
    ensures RunOf(before, after, news + more, now, members)
    ensures DueIds(after, now, Elements(if bad then list + [id] else list)) < DueIds(saved, now, Elements(list))
  {
    hide *;
    if more == [] {
      assert news + more == news;
    } else {
      assert Instance(id, saved[id], now, members).Some? && more == [Instance(id, saved[id], now, members).value] by {
        MadeNowIs(id, saved[id], now, members);
      }
      RunOfMore(before, saved, news, id, Instance(id, saved[id], now, members).value, now, members);
    }
    if bad {
      FailedGrows(saved, after, list, id, now);
    } else {
      ClaimedShrinks(saved, after, list, id, now);
    }
  }

  lemma BrokenGrows(before: Schedules, list: seq<Id>, id: Id, now: Instant, members: nat -> seq<UserId>)
    requires id in before && Due(before[id], now)
    ensures OnlyBroken(before, list, now, members) && Instance(id, before[id], now, members).None? ==>
              OnlyBroken(before, list + [id], now, members)
  {
  }

  class Worker {
    const now: Instant
    const members: nat -> seq<UserId>
    var schedules: Schedules
    var expenses: seq<Expense>

    constructor (now: Instant, members: nat -> seq<UserId>, schedules: Schedules)
      ensures this.now == now && this.members == members && this.schedules == schedules && expenses == []
    {
      this.now, this.members, this.schedules, expenses := now, members, schedules, [];
    }

    /** ClaimDueRecurring: a due schedule with the earliest next run, not failed before, moved past now. */
    method ClaimDueRecurring(failed: seq<Id>) returns (row: Option<(Id, Schedule)>)
      modifies this`schedules
      ensures row.None? <==> DueIds(old(schedules), now, Elements(failed)) == {}
      ensures row.None? ==> schedules == old(schedules)
      ensures row.Some? ==>
                var (id, s) := row.value;
                && id in DueIds(old(schedules), now, Elements(failed)) && s == old(schedules)[id]
                && (forall x | x in DueIds(old(schedules), now, Elements(failed)) :: !Before(old(schedules)[x].nextRun, s.nextRun))
                && schedules == old(schedules)[id := Claimed(s, now)]
                && id in schedules && exists k: nat :: MovedOn(s, schedules[id], now, k)
    {
      hide MovedOn;
      hide Claimed;
      hide Before;
      var due := DueIds(schedules, now, Elements(failed));
      if due == {} {
        return None;
      }
      ghost var least := MinNextRun(due, schedules);
      var id :| id in due && forall x | x in due :: !Before(schedules[x].nextRun, schedules[id].nextRun);
      var s := schedules[id];
      schedules := schedules[id := Claimed(s, now)];
      ghost var k := ClaimMeans(s, now);
      return Some((id, s));
    }

    /** One iteration after the claim, inside its transaction: the expense, its rows and the
        activity entry; false when some statement failed. */
    method Materialize(id: Id, s: Schedule, faults: Stage -> Fault) returns (ok: bool)
      requires Due(s, now)
      modifies this`expenses
      ensures ok ==> Instance(id, s, now, members).Some? && expenses == old(expenses) + [Instance(id, s, now, members).value]
      ensures (forall x :: faults(x) == NoFault) ==> (ok <==> Instance(id, s, now, members).Some?)
    {
      var splits := s.plan.defs;
      if |splits| == 0 {
        if faults(Members) != NoFault {
          return false;
        }
        splits := OfMembers(members(s.plan.group));
      }
      if faults(InsertExpense) != NoFault {
        return false;
      }
      var rows := InsertSplits(s.plan.amount, s.plan.mode, splits);
      if rows.None? || faults(Splits) != NoFault {
        return false;
      }
      var runAt := RunAt(s, now);
      expenses := expenses + [Expense(id, s.plan.(description := s.plan.description + " (recurring)"), runAt.day, rows.value)];
      return faults(Activity) == NoFault;
    }

    /** The rest of an iteration's transaction: committed, or rolled back to `saved`. */
    method RunClaimed(id: Id, s: Schedule, saved: Schedules, faults: Stage -> Fault) returns (bad: bool)
      requires id in saved && saved[id] == s && Due(s, now)
      requires schedules == saved[id := Claimed(s, now)]
      modifies this`schedules, this`expenses
      ensures if expenses == old(expenses) then schedules == saved && bad
              else schedules == saved[id := Claimed(s, now)] && expenses == old(expenses) + MadeNow(id, s, now, members)
      ensures (forall x :: faults(x) == NoFault) ==> (bad <==> Instance(id, s, now, members).None?)
    {
      MadeNowIs(id, s, now, members);
      hide *;
      var savedExpenses := expenses;
      var ok := Materialize(id, s, faults);
      if !ok || faults(Commit) == Refused {
        schedules, expenses := saved, savedExpenses;
      } else {
        assert |expenses| == |savedExpenses| + 1;
      }
      return !ok || faults(Commit) != NoFault;
    }

    /** `RunDue` at one instant, with one worker. `faults` tells which calls of which iteration
        fail. `complete` is false when a transaction could not be opened or a claim failed. */
    method RunDue(faults: nat -> Stage -> Fault)
      returns (ghost news: seq<Expense>, ghost failed: seq<Id>, ghost complete: bool)
      modifies this`schedules, this`expenses
      ensures expenses == old(expenses) + news
      ensures RunOf(old(schedules), schedules, news, now, members)
      ensures AllStayOrRun(old(schedules), schedules, news, now, members)
      ensures complete ==> Settled(old(schedules), schedules, Elements(failed), now)
      ensures (forall i, x :: faults(i)(x) == NoFault) ==> complete && OnlyBroken(old(schedules), failed, now, members)
      ensures (forall i, x :: faults(i)(x) == NoFault) ==> AllUnsplittable(old(schedules), failed, now, members)
    {
      ghost var before, past := schedules, expenses;
      var list: seq<Id> := [];
      var i := 0;
      news := [];
      StartOfRun(before, now, members);
      hide *;
      while true
        invariant expenses == past + news
        invariant RunOf(before, schedules, news, now, members)
        invariant (forall j, x :: faults(j)(x) == NoFault) ==> OnlyBroken(before, list, now, members)
        decreases DueIds(schedules, now, Elements(list))
      {
        RunOfMeans(before, schedules, news, now, members);
        if faults(i)(Begin) != NoFault {
          return news, list, false;
        }
        var saved := schedules;
        if faults(i)(Claim) != NoFault {
          return news, list, false;
        }
        var row := ClaimDueRecurring(list);
        if row.None? {
          NoneLeft(before, schedules, list, now);
          if (forall j, x :: faults(j)(x) == NoFault) { BrokenMeans(before, list, now, members); }
          return news, list, true;
        }
        var (id, s) := row.value;
        Claimable(before, saved, news, list, id, now, members);
        var bad := RunClaimed(id, s, saved, faults(i));
        ghost var more := expenses[|past + news|..];
        Progressed(before, saved, schedules, news, more, list, bad, id, now, members);
        news := news + more;
        if bad {
          BrokenGrows(before, list, id, now, members);
          list := list + [id];
        }
        i := i + 1;
      }
    }
  }
}
