/** What the recurring worker's expenses do to a group's balances. */
module RecurringLedger {
  import opened Entities
  import opened Numbers
  import opened Options
  import opened Sorting
  import Grouping
  import opened Calendar
  import opened RecurringSplits
  import Recurring
  import L = Ledger
  import opened LedgerLaws

  /** The group's row for an instance; the worker stores no exchange rate. */
  function Row(e: Recurring.Expense): L.Expense {
    L.Expense(e.plan.paidBy, e.plan.amount, None, LedgerSplits(e.rows), false)
  }

  function LedgerSplits(rows: seq<SplitRow>): (r: seq<L.Split>)
    ensures |r| == |rows|
  {
    seq(|rows|, i requires 0 <= i < |rows| => L.Split(rows[i].user, rows[i].amount))
  }

  /** A schedule whose rows add up, read off its definitions: some user, and EQUAL mode, values
      that sum to the amount, or one row for the first user, who takes the difference. */
  predicate AddsUp(plan: Recurring.Plan, members: seq<UserId>) {
    var defs := Recurring.Definitions(plan, members);
    var stored := InsertAll(plan.amount, plan.mode, defs);
    && Users(defs) != []
    && (|| plan.mode == EQUAL
        || (stored.Some? && (Sum(Amounts(stored.value)) == plan.amount || Rows(stored.value, Users(defs)[0]) == 1)))
  }

  lemma {:induction false} InsertedStorable(amount: int, mode: Mode, defs: seq<Def>)
    requires InsertAll(amount, mode, defs).Some?
    ensures forall i | 0 <= i < |InsertAll(amount, mode, defs).value| :: InsertAll(amount, mode, defs).value[i].amount >= 0
  {
    if defs != [] {
      InsertedStorable(amount, mode, defs[..|defs| - 1]);
    }
  }

  /** No row is negative: the table's CHECK holds of every row a run leaves. */
  lemma RowsNonNegative(amount: int, mode: Mode, defs: seq<Def>)
    requires 0 < amount < TWO_63 && SplitRows(amount, mode, defs).Some?
    ensures forall i | 0 <= i < |SplitRows(amount, mode, defs).value| :: SplitRows(amount, mode, defs).value[i].amount >= 0
  {
    var ids := Users(defs);
    if ids != [] {
      if mode == EQUAL {
        EqualRowsFair(amount, ids);
      } else {
        InsertedStorable(amount, mode, defs);
      }
    }
  }

  lemma InstanceRows(id: Recurring.Id, s: Recurring.Schedule, now: Instant, members: nat -> seq<UserId>)
    requires Recurring.Due(s, now) && Recurring.Instance(id, s, now, members).Some?
    ensures var e, rows := Recurring.Instance(id, s, now, members).value,
                           SplitRows(s.plan.amount, s.plan.mode, Recurring.Definitions(s.plan, members(s.plan.group)));
            rows == Some(e.rows) && e.plan.amount == s.plan.amount && e.plan.paidBy == s.plan.paidBy
  {
    hide SplitRows;
    hide Recurring.LatestOccurrence;
    hide Recurring.Later;
  }

  lemma RowsSum(rows: seq<SplitRow>)
    ensures SplitSum(LedgerSplits(rows)) == Sum(Amounts(rows))
    ensures ShareSum(LedgerSplits(rows), 1.0) == Sum(Amounts(rows))
  {
    var splits := LedgerSplits(rows);
    UnratedShares(splits);
    assert Map((s: L.Split) => s.amount, splits) == Amounts(rows);
    assert Grouping.Amounts(RawShares(splits)) == Amounts(rows);
  }

  lemma PlanSum(plan: Recurring.Plan, members: seq<UserId>)
    requires SplitRows(plan.amount, plan.mode, Recurring.Definitions(plan, members)).Some?
    ensures Sum(Amounts(SplitRows(plan.amount, plan.mode, Recurring.Definitions(plan, members)).value)) == plan.amount <==> AddsUp(plan, members)
  {
    var defs := Recurring.Definitions(plan, members);
    if Users(defs) == [] {
      assert Amounts([]) == [];
    } else {
      hide SplitRows;
      SplitRowsSum(plan.amount, plan.mode, defs);
    }
  }

  lemma InstanceNonNegative(id: Recurring.Id, s: Recurring.Schedule, now: Instant, members: nat -> seq<UserId>)
    requires Recurring.Due(s, now) && Recurring.Instance(id, s, now, members).Some?
    ensures NonNegative(Row(Recurring.Instance(id, s, now, members).value))
  {
    InstanceRows(id, s, now, members);
    RowsNonNegative(s.plan.amount, s.plan.mode, Recurring.Definitions(s.plan, members(s.plan.group)));
    hide SplitRows;
    hide Recurring.Instance;
    hide Recurring.Definitions;
  }

  /** An instance keeps the group's ledger balanced exactly when its schedule adds up. */
  lemma InstanceBalancesIff(id: Recurring.Id, s: Recurring.Schedule, now: Instant, members: nat -> seq<UserId>)
    requires Recurring.Due(s, now) && Recurring.Instance(id, s, now, members).Some?
    ensures var e := Recurring.Instance(id, s, now, members).value;
            && (Consistent(Row(e)) <==> AddsUp(s.plan, members(s.plan.group)))
            && (Drift(Row(e)) == 0 <==> AddsUp(s.plan, members(s.plan.group)))
  {
    InstanceRows(id, s, now, members);
    hide *;
    var e := Recurring.Instance(id, s, now, members).value;
    RowsNonNegative(s.plan.amount, s.plan.mode, Recurring.Definitions(s.plan, members(s.plan.group)));
    PlanSum(s.plan, members(s.plan.group));
    RowBalance(e);
  }

  lemma RowBalance(e: Recurring.Expense)
    requires forall i | 0 <= i < |e.rows| :: e.rows[i].amount >= 0
    ensures Consistent(Row(e)) <==> Sum(Amounts(e.rows)) == e.plan.amount
    ensures Drift(Row(e)) == 0 <==> Sum(Amounts(e.rows)) == e.plan.amount
  {
    RowsSum(e.rows);
    L.RoundExact(e.plan.amount);
    hide SplitSum;
    hide ShareSum;
    hide L.Converted;
  }

  /** Without definitions the worker falls back to the group's members, but in any mode other
      than EQUAL the expense then has no rows: the payer is credited and nobody is charged. */
  lemma FallbackUnbalances(id: Recurring.Id, s: Recurring.Schedule, now: Instant, members: nat -> seq<UserId>)
    requires Recurring.Due(s, now) && s.plan.defs == [] && s.plan.mode != EQUAL && members(s.plan.group) != []
    ensures var e := Recurring.Instance(id, s, now, members);
            e.Some? && e.value.rows == [] && Drift(Row(e.value)) == s.plan.amount
  {
    MembersFallback(s.plan.amount, s.plan.mode, members(s.plan.group));
    hide SplitRows;
    hide Recurring.LatestOccurrence;
    hide Recurring.Later;
    var e := Recurring.Instance(id, s, now, members).value;
    RowsSum(e.rows);
    L.RoundExact(e.plan.amount);
    assert Amounts(e.rows) == [];
    hide SplitSum;
    hide ShareSum;
    hide L.Converted;
  }
}
