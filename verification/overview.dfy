/** A user's overview of all groups (GetMyGroupBalances, internal/db/balances.sql.go, and
    GetMyBalances, internal/balances/handlers.go). */
module Overview {
  import opened Entities
  import opened Numbers
  import opened Options
  import opened Sorting
  import opened Grouping
  import opened Ledger
  import opened LedgerLaws
  import LedgerRuns
  import SettleUpRuns

  const TWO_31: int := 0x8000_0000

  predicate FitsInt32(x: int) { -TWO_31 <= x < TWO_31 }

  datatype Listed = Listed(id: nat, group: Group, archived: bool)

  datatype Row = Row(id: nat, balance: int)

  predicate Shown(g: Listed, u: nat) { !g.archived && u in g.group.members }

  /** The query's rows: one for each unarchived group the user is a member of. */
  function Rows(groups: seq<Listed>, u: nat): seq<Row> {
    if groups == [] then []
    else
      var g := groups[|groups| - 1];
      Rows(groups[..|groups| - 1], u) + if Shown(g, u) then [Row(g.id, MyBalance(g.group, u))] else []
  }

  predicate AllFit(rows: seq<Row>) { forall i | 0 <= i < |rows| :: FitsInt32(rows[i].balance) }

  // ----- the query

  /** The four sub-queries: `recv` sums settlements by sender, `sent` by receiver. */
  datatype Sub = Paid | Owed | Recv | Sent

  function SubItems(sub: Sub, g: Group): seq<Item<UserId>> {
    match sub
    case Paid => PaidItems(g.expenses)
    case Owed => OwedItems(g.expenses)
    case Recv => SentItems(LiveSettlements(g.settlements))
    case Sent => ReceivedItems(LiveSettlements(g.settlements))
  }

  function SubSum(sub: Sub, g: Group, u: UserId): int { Total(SubItems(sub, g), u) }

  /** Which aggregates the database computes, by sub-query, group and user. The sub-queries range
      over all groups, archived and left ones included; how far the planner narrows them is open. */
  type Plan = (Sub, nat, UserId) -> bool

  /** The plan computes at least what the rows need. */
  ghost predicate Suffices(plan: Plan, groups: seq<Listed>, u: UserId) {
    forall sub, i | 0 <= i < |groups| && Shown(groups[i], u) :: plan(sub, i, u)
  }

  /** No cast of a computed aggregate fails. */
  ghost predicate Computed(plan: Plan, groups: seq<Listed>) {
    forall sub, i, v: UserId | 0 <= i < |groups| && plan(sub, i, v) :: Castable(SubItems(sub, groups[i].group), v)
  }

  /** paid - owed + recv, before sent is taken off. */
  function Partial(g: Group, u: UserId): int { SubSum(Paid, g, u) - SubSum(Owed, g, u) + SubSum(Recv, g, u) }

  /** The balance column in bigint arithmetic, from left to right. */
  predicate InBigint(g: Group, u: UserId) {
    InInt64(SubSum(Paid, g, u) - SubSum(Owed, g, u)) && InInt64(Partial(g, u)) && InInt64(MyBalance(g, u))
  }

  ghost predicate Evaluates(plan: Plan, groups: seq<Listed>, u: UserId) {
    Computed(plan, groups) && forall g | g in groups && Shown(g, u) :: InBigint(g.group, u)
  }

  /** What the query answers: its rows, or an error. */
  ghost predicate Answered(sent: Option<seq<Row>>, plan: Plan, groups: seq<Listed>, u: UserId) {
    && (sent.Some? <==> Evaluates(plan, groups, u))
    && (sent.Some? ==> sent.value == Rows(groups, u))
  }

  /** Scanning the rows into the int32 column of the result: all of them, or an error. */
  method GetMyGroupBalances(sent: Option<seq<Row>>, ghost plan: Plan, ghost groups: seq<Listed>, ghost u: UserId)
    returns (rows: Option<seq<Row>>)
    requires Answered(sent, plan, groups, u)
    ensures rows.Some? <==> Evaluates(plan, groups, u) && AllFit(Rows(groups, u))
    ensures rows.Some? ==> rows.value == Rows(groups, u)
  {
    hide Rows;
    hide Evaluates;
    if sent.None? {
      return None;
    }
    var items := [];
    for i := 0 to |sent.value|
      invariant items == sent.value[..i]
      invariant forall j | 0 <= j < i :: FitsInt32(sent.value[j].balance)
    {
      if sent.value[i].balance < -TWO_31 || sent.value[i].balance >= TWO_31 {
        assert !FitsInt32(sent.value[i].balance);
        return None;
      }
      items := items + [sent.value[i]];
    }
    return Some(items);
  }

  function Balances(rows: seq<Row>): (r: seq<int>)
    ensures |r| == |rows|
  {
    Map((x: Row) => x.balance, rows)
  }

  function Positive(x: int): int { Max(x, 0) }

  /** `GetMyBalances`: the rows and their summary, or an error response for the whole listing. */
  method GetMyBalances(sent: Option<seq<Row>>, ghost plan: Plan, ghost groups: seq<Listed>, ghost u: UserId)
    returns (rows: Option<seq<Row>>, owed: int, owing: int)
    requires Answered(sent, plan, groups, u)
    ensures rows.Some? <==> Evaluates(plan, groups, u) && AllFit(Rows(groups, u))
    ensures rows.Some? ==> rows.value == Rows(groups, u)
    ensures rows.Some? ==> owed == Sum(Map(Positive, Balances(rows.value))) && owed - owing == Sum(Balances(rows.value))
  {
    hide Evaluates;
    rows := GetMyGroupBalances(sent, plan, groups, u);
    owed, owing := 0, 0;
    if rows.None? {
      return;
    }
    ghost var all := Balances(rows.value);
    for i := 0 to |rows.value|
      invariant owed == Sum(Map(Positive, all)[..i]) && owed - owing == Sum(all[..i])
    {
      var bal := rows.value[i].balance;
      SumNext(all, i);
      SumNext(Map(Positive, all), i);
      if bal > 0 {
        owed := owed + bal;
      } else {
        owing := owing - bal;
      }
    }
    assert all[..|all|] == all && Map(Positive, all)[..|all|] == Map(Positive, all);
  }

  function ShownGroups(groups: seq<Listed>, u: nat): (r: seq<Listed>)
    ensures forall g :: g in r <==> g in groups && Shown(g, u)
  {
    if groups == [] then []
    else
      var front, g := groups[..|groups| - 1], groups[|groups| - 1];
      assert groups == front + [g];
      ShownGroups(front, u) + if Shown(g, u) then [g] else []
  }

  /** The rows are the shown groups, in order, each with the user's balance in the group's own
      map. */
  lemma {:induction false} RowsAreNets(groups: seq<Listed>, u: nat)
    ensures |Rows(groups, u)| == |ShownGroups(groups, u)|
    ensures forall i | 0 <= i < |Rows(groups, u)| ::
              var g := ShownGroups(groups, u)[i]; Rows(groups, u)[i] == Row(g.id, Net(g.group, u))
  {
    if groups != [] {
      RowsAreNets(groups[..|groups| - 1], u);
      MyBalanceAgrees(groups[|groups| - 1].group, u);
      hide Net;
      hide MyBalance;
    }
  }

  /** Just the groups the user is in that are not archived have a row. */
  lemma {:induction false} RowsListed(groups: seq<Listed>, u: nat, row: Row)
    ensures row in Rows(groups, u) <==>
              exists g :: g in groups && g.id == row.id && !g.archived && u in g.group.members && Net(g.group, u) == row.balance
  {
    RowsAreNets(groups, u);
    hide Net;
    hide Rows;
    var rows, shown := Rows(groups, u), ShownGroups(groups, u);
    if row in rows {
      var i :| 0 <= i < |rows| && rows[i] == row;
      assert shown[i] in shown;
    }
    if g :| g in groups && g.id == row.id && !g.archived && u in g.group.members && Net(g.group, u) == row.balance {
      assert g in shown;
      var i :| 0 <= i < |shown| && shown[i] == g;
      assert rows[i] == row;
    }
  }

  /** The result type's column is an int32. */
  lemma ColumnFits(rows: seq<Row>)
    ensures AllFit(rows) <==> forall r | r in rows :: -2147483648 <= r.balance <= 2147483647
  {
  }

  /** The rows fit int32 if and only if the balances of the shown groups' own maps do. */
  lemma {:induction false} RowsFitIff(groups: seq<Listed>, u: nat)
    ensures AllFit(Rows(groups, u)) <==> forall g | g in groups && Shown(g, u) :: FitsInt32(Net(g.group, u))
  {
    RowsAreNets(groups, u);
    hide Net;
    hide Rows;
    hide FitsInt32;
    var rows, shown := Rows(groups, u), ShownGroups(groups, u);
    if AllFit(rows) {
      forall g | g in groups && Shown(g, u)
        ensures FitsInt32(Net(g.group, u))
      {
        var i :| 0 <= i < |shown| && shown[i] == g;
        assert FitsInt32(rows[i].balance);
      }
    }
    if forall g | g in groups && Shown(g, u) :: FitsInt32(Net(g.group, u)) {
      forall i | 0 <= i < |rows|
        ensures FitsInt32(rows[i].balance)
      {
        assert shown[i] in shown;
      }
    }
  }

  lemma InBigintIff(g: Group, u: UserId)
    requires FitsInt32(Net(g, u))
    ensures InBigint(g, u) <==> InInt64(SubSum(Paid, g, u) - SubSum(Owed, g, u)) && InInt64(Partial(g, u))
  {
    MyBalanceAgrees(g, u);
    hide Net;
    hide MyBalance;
    hide SubSum;
    hide Partial;
  }

  ghost predicate Fine(g: Group, u: UserId) {
    && InInt64(SubSum(Paid, g, u) - SubSum(Owed, g, u)) && InInt64(Partial(g, u)) && FitsInt32(Net(g, u))
  }

  /** The overview answers if and only if no computed aggregate leaves bigint and, in every listed
      group, neither does a partial sum of the balance, and the balance fits int32. */
  lemma {:induction false} OverviewAnswersIff(plan: Plan, groups: seq<Listed>, u: UserId)
    ensures Evaluates(plan, groups, u) && AllFit(Rows(groups, u)) <==>
              Computed(plan, groups) && forall g | g in groups && Shown(g, u) :: Fine(g.group, u)
  {
    RowsFitIff(groups, u);
    hide AllFit;
    hide Rows;
    hide Computed;
    forall g | g in groups && Shown(g, u)
      ensures FitsInt32(Net(g.group, u)) ==> (InBigint(g.group, u) <==> Fine(g.group, u))
      ensures Fine(g.group, u) ==> FitsInt32(Net(g.group, u))
    {
      if FitsInt32(Net(g.group, u)) { InBigintIff(g.group, u); }
      hide Net;
      hide InBigint;
      hide FitsInt32;
      hide SubSum;
      hide Partial;
    }
    hide Net;
    hide FitsInt32;
    hide InBigint;
    hide Fine;
  }

  // ----- stored rows

  /** What the tables keep of every group: no negative amount. */
  ghost predicate Stored(g: Group) {
    && (forall i | 0 <= i < |g.expenses| :: NonNegative(g.expenses[i]))
    && (forall j | 0 <= j < |g.settlements| :: g.settlements[j].amount > 0)
  }

  lemma {:induction false} LivePositive(settlements: seq<Settlement>)
    requires forall j | 0 <= j < |settlements| :: settlements[j].amount > 0
    ensures forall j | 0 <= j < |LiveSettlements(settlements)| :: LiveSettlements(settlements)[j].amount > 0
  {
    if settlements != [] { LivePositive(settlements[..|settlements| - 1]); }
  }

  lemma SubNonNegative(sub: Sub, g: Group, u: UserId)
    requires Stored(g)
    ensures forall i | 0 <= i < |SubItems(sub, g)| :: SubItems(sub, g)[i].value >= 0
    ensures SubSum(sub, g, u) >= 0
  {
    LivePositive(g.settlements);
    LedgerRuns.RowsNonNegative(g.expenses);
    hide PaidItems;
    hide OwedItems;
    hide LiveSettlements;
    TotalNonNegative(SubItems(sub, g), u);
  }

  /** For stored rows: the overview answers if and only if every computed aggregate stays below
      2^63, and in every listed group paid - owed + recv does, too, and the balance fits int32. */
  lemma {:induction false} StoredAnswersIff(plan: Plan, groups: seq<Listed>, u: UserId)
    requires forall i | 0 <= i < |groups| :: Stored(groups[i].group)
    requires Suffices(plan, groups, u)
    ensures Evaluates(plan, groups, u) && AllFit(Rows(groups, u)) <==>
              && (forall sub, i, v: UserId | 0 <= i < |groups| && plan(sub, i, v) :: SubSum(sub, groups[i].group, v) < TWO_63)
              && (forall i | 0 <= i < |groups| && Shown(groups[i], u) ::
                    Partial(groups[i].group, u) < TWO_63 && FitsInt32(Net(groups[i].group, u)))
  {
    OverviewAnswersIff(plan, groups, u);
    ComputedIff(plan, groups);
    hide Evaluates;
    hide AllFit;
    hide Rows;
    hide Computed;
    hide Stored;
    hide Net;
    hide SubSum;
    hide Partial;
    hide Fine;
    if forall sub, i, v: UserId | 0 <= i < |groups| && plan(sub, i, v) :: SubSum(sub, groups[i].group, v) < TWO_63 {
      forall i | 0 <= i < |groups| && Shown(groups[i], u)
        ensures Fine(groups[i].group, u) <==> Partial(groups[i].group, u) < TWO_63 && FitsInt32(Net(groups[i].group, u))
      {
        assert plan(Paid, i, u) && plan(Owed, i, u);
        FineIff(groups[i].group, u);
      }
      assert (forall g | g in groups && Shown(g, u) :: Fine(g.group, u)) <==>
             (forall i | 0 <= i < |groups| && Shown(groups[i], u) :: Fine(groups[i].group, u));
    }
  }

  lemma FineIff(g: Group, u: UserId)
    requires Stored(g) && SubSum(Paid, g, u) < TWO_63 && SubSum(Owed, g, u) < TWO_63
    ensures Fine(g, u) <==> Partial(g, u) < TWO_63 && FitsInt32(Net(g, u))
  {
    SubNonNegative(Paid, g, u);
    SubNonNegative(Owed, g, u);
    SubNonNegative(Recv, g, u);
    hide Stored;
    hide SubSum;
    hide Net;
  }

  lemma ComputedIff(plan: Plan, groups: seq<Listed>)
    requires forall i | 0 <= i < |groups| :: Stored(groups[i].group)
    ensures Computed(plan, groups) <==>
              forall sub, i, v: UserId | 0 <= i < |groups| && plan(sub, i, v) :: SubSum(sub, groups[i].group, v) < TWO_63
  {
    forall sub, i, v: UserId | 0 <= i < |groups| && plan(sub, i, v)
      ensures Castable(SubItems(sub, groups[i].group), v) <==> SubSum(sub, groups[i].group, v) < TWO_63
    {
      SubNonNegative(sub, groups[i].group, v);
      CastableIff(SubItems(sub, groups[i].group), v);
    }
    hide Castable;
    hide SubSum;
    hide SubItems;
    hide Stored;
  }

  // ----- overviews that fail

  ghost predicate Fails(plan: Plan, groups: seq<Listed>, u: UserId) { !(Evaluates(plan, groups, u) && AllFit(Rows(groups, u))) }

  /** Someone owed 2^31 minor units in one group gets no overview of any group, although that
      group's map shows the balance. */
  lemma LargeBalanceHidesAll(others: seq<Listed>, plan: Plan)
    ensures var large := Listed(0, Group({1, 2}, [SettleUpRuns.Loan(TWO_31)], []), false);
            Net(large.group, 1) == TWO_31 && Fails(plan, others + [large], 1)
  {
    var large := Listed(0, Group({1, 2}, [SettleUpRuns.Loan(TWO_31)], []), false);
    SettleUpRuns.LoanNets({1, 2}, TWO_31, 1);
    hide Net;
    hide SettleUpRuns.Loan;
    assert Shown(large, 1) && !FitsInt32(TWO_31) && !Fine(large.group, 1);
    hide *;
    OneHidesAll(others, large, plan, 1);
  }

  lemma OneHidesAll(others: seq<Listed>, g: Listed, plan: Plan, u: UserId)
    requires Shown(g, u) && !Fine(g.group, u)
    ensures Fails(plan, others + [g], u)
  {
    OverviewAnswersIff(plan, others + [g], u);
    hide Evaluates;
    hide Rows;
    hide AllFit;
    hide Fine;
    assert g in others + [g];
  }

  /** User 1 pays 2^62 for nobody else. */
  function Self(): Expense { SettleUpRuns.Rowed(SettleUpRuns.TWO_62, None, [Split(1, SettleUpRuns.TWO_62)]) }

  lemma {:induction false} SelfTotals(u: UserId)
    ensures Total(PaidItems([Self(), Self()]), u) == Total(OwedItems([Self(), Self()]), u) == if u == 1 then TWO_63 else 0
  {
    RoundExact(SettleUpRuns.TWO_62);
    hide Converted;
    assert ShareItems(Self().splits, 1.0) == [Item(1, SettleUpRuns.TWO_62)];
    hide PaidItems;
    hide OwedItems;
    hide ShareItems;
    hide Total;
    SettleUpRuns.TwoExpenses(Self(), Self(), u);
    SettleUpRuns.SingleTotals(Item(1, SettleUpRuns.TWO_62), u);
  }

  /** Two such expenses, in a group archived or not: the balance is zero, the overview fails
      wherever that group's sum is computed. */
  lemma SelfPaidHidesAll(others: seq<Listed>, archived: bool, plan: Plan)
    requires plan(Paid, |others|, 1)
    ensures var g := Listed(0, Group({1}, [Self(), Self()], []), archived);
            Net(g.group, 1) == 0 && Fails(plan, others + [g], 1)
  {
    var g := Listed(0, Group({1}, [Self(), Self()], []), archived);
    SelfTotals(1);
    SettleUpRuns.NetWithoutSettlements({1}, [Self(), Self()], 1);
    hide Net;
    hide Rows;
    hide PaidItems;
    hide OwedItems;
    var all := others + [g];
    assert all[|others|] == g;
    assert !Castable(SubItems(Paid, g.group), 1);
    hide Castable;
    assert !Computed(plan, all);
  }

  /** User 1 lends 2^62, pays 2^62 back and forth: every sum and the balance of 1 are in range,
      paid - owed + recv is not. */
  function Around(): Group {
    Group({1, 2}, [SettleUpRuns.Loan(SettleUpRuns.TWO_62)],
          [Settlement(1, 2, SettleUpRuns.TWO_62, false), Settlement(2, 1, TWO_63 - 1, false)])
  }

  lemma TwoLive(s: Settlement, t: Settlement)
    requires !s.deleted && !t.deleted
    ensures LiveSettlements([s, t]) == [s, t]
    ensures SentItems([s, t]) == [Item(s.from, s.amount), Item(t.from, t.amount)]
    ensures ReceivedItems([s, t]) == [Item(s.to, s.amount), Item(t.to, t.amount)]
  {
    assert [s, t][..1] == [s] && [s][..0] == [];
    assert LiveSettlements([s]) == [s];
  }

  lemma AroundSums(u: UserId)
    ensures SubSum(Paid, Around(), u) == if u == 1 then SettleUpRuns.TWO_62 else 0
    ensures SubSum(Owed, Around(), u) == if u == 2 then SettleUpRuns.TWO_62 else 0
    ensures SubSum(Recv, Around(), u) == if u == 1 then SettleUpRuns.TWO_62 else if u == 2 then TWO_63 - 1 else 0
    ensures SubSum(Sent, Around(), u) == if u == 2 then SettleUpRuns.TWO_62 else if u == 1 then TWO_63 - 1 else 0
  {
    var s, t := Settlement(1, 2, SettleUpRuns.TWO_62, false), Settlement(2, 1, TWO_63 - 1, false);
    TwoLive(s, t);
    hide PaidItems;
    hide OwedItems;
    hide LiveSettlements;
    hide SentItems;
    hide ReceivedItems;
    hide SettleUpRuns.Loan;
    hide Total;
    SettleUpRuns.LoanTotals(SettleUpRuns.TWO_62, u);
    SettleUpRuns.PairTotals(Item(s.from, s.amount), Item(t.from, t.amount), u);
    SettleUpRuns.PairTotals(Item(s.to, s.amount), Item(t.to, t.amount), u);
  }

  lemma PartialSumHidesAll(others: seq<Listed>, plan: Plan)
    ensures var g := Listed(0, Around(), false);
            && (forall sub, u: UserId :: SubSum(sub, g.group, u) < TWO_63)
            && Net(g.group, 1) == 1 && Net(g.group, 2) == -1 && Fails(plan, others + [g], 1)
  {
    var g := Listed(0, Around(), false);
    forall sub, u: UserId
      ensures SubSum(sub, g.group, u) < TWO_63
    {
      AroundSums(u);
      match sub { case Paid => case Owed => case Recv => case Sent => }
    }
    AroundNets();
    assert Shown(g, 1);
    hide Net;
    hide Around;
    hide SubSum;
    hide Rows;
    hide AllFit;
    hide Evaluates;
    AroundSums(1);
    OverviewAnswersIff(plan, others + [g], 1);
    assert g in others + [g];
    assert !Fine(g.group, 1);
  }

  lemma AroundNets()
    ensures Net(Around(), 1) == 1 && Net(Around(), 2) == -1
  {
    AroundSums(1);
    AroundSums(2);
    MyBalanceIs(Around(), 1);
    MyBalanceIs(Around(), 2);
  }

  lemma MyBalanceIs(g: Group, u: UserId)
    ensures Net(g, u) == Partial(g, u) - SubSum(Sent, g, u)
  {
    MyBalanceAgrees(g, u);
    hide Net;
    hide PaidItems;
    hide OwedItems;
    hide LiveSettlements;
    hide Total;
  }
}
