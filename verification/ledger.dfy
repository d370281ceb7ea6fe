/** A group's balances: the aggregate queries with their per-row rounding
    (internal/db/balances.sql.go), the map the handler builds from them
    (internal/balances/handlers.go) and the plain ledger of internal/balances/balances.go. */
module Ledger {
  import opened Entities
  import opened Numbers
  import opened Options
  import opened Sorting
  import opened Grouping

  datatype Split = Split(user: UserId, amount: int)

  datatype Expense = Expense(payer: UserId, amount: int, rate: Option<real>, splits: seq<Split>, deleted: bool)

  datatype Settlement = Settlement(from: UserId, to: UserId, amount: int, deleted: bool)

  /** One group's rows. A row's position stands for its id. */
  datatype Group = Group(members: set<UserId>, expenses: seq<Expense>, settlements: seq<Settlement>)

  // ----- rounding

  /** Postgres `ROUND(numeric)`: half away from zero. */
  function Round(x: real): int {
    if x >= 0.0 then (x + 0.5).Floor else -((-x + 0.5).Floor)
  }

  function RateOf(e: Expense): real {
    if e.rate.Some? then e.rate.value else 1.0
  }

  /** `ROUND(amount * COALESCE(exchange_rate, 1))` */
  function Converted(amount: int, rate: real): int {
    Round(amount as real * rate)
  }

  lemma RoundExact(n: int)
    ensures Converted(n, 1.0) == n
  {
    assert n as real * 1.0 == n as real;
  }

  // ----- the queries, as keyed amounts

  function PaidItems(expenses: seq<Expense>): seq<Item<UserId>> {
    if expenses == [] then []
    else
      var e := expenses[|expenses| - 1];
      PaidItems(expenses[..|expenses| - 1]) + if e.deleted then [] else [Item(e.payer, Converted(e.amount, RateOf(e)))]
  }

  function ShareItems(splits: seq<Split>, rate: real): (r: seq<Item<UserId>>)
    ensures |r| == |splits|
  {
    Map((s: Split) => Item(s.user, Converted(s.amount, rate)), splits)
  }

  function OwedItems(expenses: seq<Expense>): seq<Item<UserId>> {
    if expenses == [] then []
    else
      var e := expenses[|expenses| - 1];
      OwedItems(expenses[..|expenses| - 1]) + if e.deleted then [] else ShareItems(e.splits, RateOf(e))
  }

  /** `ListSettlementsByGroup`: the live settlements. */
  function LiveSettlements(settlements: seq<Settlement>): seq<Settlement> {
    if settlements == [] then []
    else
      var s := settlements[|settlements| - 1];
      LiveSettlements(settlements[..|settlements| - 1]) + if s.deleted then [] else [s]
  }

  function SettlementToEntries(from: UserId, to: UserId, amount: int): seq<Item<UserId>> {
    [Item(from, amount), Item(to, -amount)]
  }

  function SettlementItems(live: seq<Settlement>): seq<Item<UserId>> {
    if live == [] then []
    else
      var s := live[|live| - 1];
      SettlementItems(live[..|live| - 1]) + SettlementToEntries(s.from, s.to, s.amount)
  }

  /** Rows of a `GROUP BY key` with `SUM(value)`, in the order the database sends them. */
  ghost predicate GroupedRows(rows: seq<Item<UserId>>, items: seq<Item<UserId>>) {
    && (forall i, j | 0 <= i < j < |rows| :: rows[i].key != rows[j].key)
    && (forall i | 0 <= i < |rows| :: rows[i].value == Total(items, rows[i].key) && exists j | 0 <= j < |items| :: items[j].key == rows[i].key)
    && (forall j | 0 <= j < |items| :: exists i | 0 <= i < |rows| :: rows[i].key == items[j].key)
  }

  /** `SUM(..::bigint)::bigint` of one key's rows: no row and no sum leaves bigint. */
  ghost predicate Castable<K>(items: seq<Item<K>>, k: K) {
    InInt64(Total(items, k)) && forall i | 0 <= i < |items| && items[i].key == k :: InInt64(items[i].value)
  }

  ghost predicate Summable(items: seq<Item<UserId>>) {
    forall u: UserId :: Castable(items, u)
  }

  /** What such a query answers: its rows, or an error when a cast fails. */
  ghost predicate Answers(rows: Option<seq<Item<UserId>>>, items: seq<Item<UserId>>) {
    && (rows.Some? <==> Summable(items))
    && (rows.Some? ==> GroupedRows(rows.value, items))
  }

  /** A user's balance: paid, minus owed, plus sent, minus received. */
  function Net(g: Group, u: UserId): int {
    Total(PaidItems(g.expenses), u) - Total(OwedItems(g.expenses), u) + Total(SettlementItems(LiveSettlements(g.settlements)), u)
  }

  /** The items a query's answer stands for: none of them when it failed. */
  ghost function Counted(items: seq<Item<UserId>>): seq<Item<UserId>> {
    if Summable(items) then items else []
  }

  /** The balance the handler's map shows: the sums that were answered, in int64 arithmetic. */
  ghost function Displayed(g: Group, u: UserId): Int64 {
    Wrap(Total(Counted(PaidItems(g.expenses)), u) - Total(Counted(OwedItems(g.expenses)), u)
         + Total(SettlementItems(LiveSettlements(g.settlements)), u))
  }

  ghost predicate Listed(rows: seq<Item<UserId>>, u: UserId) {
    exists i | 0 <= i < |rows| :: rows[i].key == u
  }

  ghost predicate Party(rows: seq<Settlement>, u: UserId) {
    exists i | 0 <= i < |rows| :: rows[i].from == u || rows[i].to == u
  }

  /** Users the balance map mentions. */
  ghost predicate Mentioned(g: Group, u: UserId) {
    || u in g.members
    || Listed(PaidItems(g.expenses), u)
    || Listed(OwedItems(g.expenses), u)
    || Party(LiveSettlements(g.settlements), u)
  }

  /** Users in the map the handler builds. */
  ghost predicate InMap(g: Group, u: UserId) {
    || u in g.members
    || Listed(Counted(PaidItems(g.expenses)), u)
    || Listed(Counted(OwedItems(g.expenses)), u)
    || Party(LiveSettlements(g.settlements), u)
  }

  // ----- building the map

  function Get(m: map<UserId, Int64>, u: UserId): Int64 {
    if u in m then m[u] else 0
  }

  lemma {:induction false} GroupedTotal(rows: seq<Item<UserId>>, items: seq<Item<UserId>>, u: UserId)
    requires GroupedRows(rows, items)
    ensures Total(rows, u) == Total(items, u)
  {
    if i :| 0 <= i < |rows| && rows[i].key == u {
      SingleTotal(rows, i);
    } else {
      TotalAbsent(rows, u);
      TotalAbsent(items, u);
    }
  }

  lemma {:induction false} SingleTotal(rows: seq<Item<UserId>>, i: nat)
    requires i < |rows|
    requires forall a, b | 0 <= a < b < |rows| :: rows[a].key != rows[b].key
    ensures Total(rows, rows[i].key) == rows[i].value
  {
    var n := |rows| - 1;
    if i == n {
      TotalAbsent(rows[..n], rows[n].key);
    } else {
      SingleTotal(rows[..n], i);
    }
  }

  method Zeros(members: seq<UserId>) returns (m: map<UserId, Int64>)
    ensures forall u :: u in m <==> u in members
    ensures forall u :: Get(m, u) == 0
  {
    m := map[];
    for i := 0 to |members|
      invariant forall u :: u in m <==> u in members[..i]
      invariant forall u :: Get(m, u) == 0
    {
      ghost var before := m;
      m := m[members[i] := 0];
      assert members[..i + 1] == members[..i] + [members[i]];
      assert forall u :: Get(m, u) == if u == members[i] then 0 else Get(before, u);
    }
  }

  /** Go's `a + value`. */
  function Plus(a: int, value: int): Int64 { Wrap(a + value) }

  lemma PlusTwice(a: int, x: int, y: int)
    ensures Plus(Plus(a, x), y) == Plus(a, x + y)
  {
    WrapAdd(a + x, y);
  }

  /** `m[k] += value` */
  function Added(m: map<UserId, Int64>, k: UserId, value: int): map<UserId, Int64> {
    m[k := Plus(Get(m, k), value)]
  }

  function Signed(minus: bool, x: int): int { if minus then -x else x }

  /** `m` is `m0` with the items added in, or taken off. */
  ghost predicate Holds(m: map<UserId, Int64>, m0: map<UserId, Int64>, items: seq<Item<UserId>>, minus: bool) {
    forall u :: HoldsAt(m, m0, items, minus, u)
  }

  ghost predicate HoldsAt(m: map<UserId, Int64>, m0: map<UserId, Int64>, items: seq<Item<UserId>>, minus: bool, u: UserId) {
    && (u in m <==> u in m0 || Listed(items, u))
    && Get(m, u) == Plus(Get(m0, u), Signed(minus, Total(items, u)))
  }

  lemma HoldsNothing(m: map<UserId, Int64>, minus: bool)
    ensures Holds(m, m, [], minus)
  {
  }

  lemma HoldsMore(m: map<UserId, Int64>, m0: map<UserId, Int64>, items: seq<Item<UserId>>, i: nat, minus: bool)
    requires i < |items| && Holds(m, m0, items[..i], minus)
    ensures Holds(Added(m, items[i].key, Signed(minus, items[i].value)), m0, items[..i + 1], minus)
  {
    hide HoldsAt;
    var after, more := Added(m, items[i].key, Signed(minus, items[i].value)), items[..i + 1];
    forall u
      ensures HoldsAt(after, m0, more, minus, u)
    {
      HoldsMoreAt(m, m0, items, i, minus, u);
    }
  }

  lemma HoldsMoreAt(m: map<UserId, Int64>, m0: map<UserId, Int64>, items: seq<Item<UserId>>, i: nat, minus: bool, u: UserId)
    requires i < |items| && HoldsAt(m, m0, items[..i], minus, u)
    ensures HoldsAt(Added(m, items[i].key, Signed(minus, items[i].value)), m0, items[..i + 1], minus, u)
  {
    RowStepAt(items, i, u);
    PlusTwice(Get(m0, u), Signed(minus, Total(items[..i], u)), Signed(minus, items[i].value));
    hide Plus;
    hide Total;
    hide Listed;
  }

  lemma {:induction false} RowStepAt(rows: seq<Item<UserId>>, i: nat, u: UserId)
    requires i < |rows|
    ensures Total(rows[..i + 1], u) == Total(rows[..i], u) + if rows[i].key == u then rows[i].value else 0
    ensures Listed(rows[..i + 1], u) <==> Listed(rows[..i], u) || rows[i].key == u
  {
    assert rows[..i + 1] == rows[..i] + [rows[i]];
    TotalSnoc(rows[..i], rows[i], u);
    assert rows[..i + 1][i] == rows[i];
    if j :| 0 <= j < i && rows[..i][j].key == u { assert rows[..i + 1][j].key == u; }
  }

  /** `m[row.UserID] += row.Total` over the rows, or `-=`. */
  method FoldRows(m0: map<UserId, Int64>, rows: seq<Item<UserId>>, minus: bool) returns (m: map<UserId, Int64>)
    ensures forall u :: u in m <==> u in m0 || Listed(rows, u)
    ensures forall u :: Get(m, u) == Wrap(Get(m0, u) + Signed(minus, Total(rows, u)))
  {
    hide Holds;
    m := m0;
    HoldsNothing(m0, minus);
    for i := 0 to |rows|
      invariant Holds(m, m0, rows[..i], minus)
    {
      HoldsMore(m, m0, rows, i, minus);
      m := Added(m, rows[i].key, Signed(minus, rows[i].value));
    }
    assert rows[..|rows|] == rows;
    HoldsMeans(m, m0, rows, minus);
  }

  lemma {:induction false} HoldsMeans(m: map<UserId, Int64>, m0: map<UserId, Int64>, items: seq<Item<UserId>>, minus: bool)
    requires Holds(m, m0, items, minus)
    ensures forall u :: u in m <==> u in m0 || Listed(items, u)
    ensures forall u :: Get(m, u) == Wrap(Get(m0, u) + Signed(minus, Total(items, u)))
  {
    forall u
      ensures u in m <==> u in m0 || Listed(items, u)
      ensures Get(m, u) == Wrap(Get(m0, u) + Signed(minus, Total(items, u)))
    {
      assert HoldsAt(m, m0, items, minus, u);
    }
  }

  /** `m[row.FromUser] += row.Amount; m[row.ToUser] -= row.Amount` over the rows. */
  method FoldSettlements(m0: map<UserId, Int64>, rows: seq<Settlement>) returns (m: map<UserId, Int64>)
    ensures forall u :: u in m <==> u in m0 || Party(rows, u)
    ensures forall u :: Get(m, u) == Wrap(Get(m0, u) + Total(SettlementItems(rows), u))
  {
    hide Holds;
    m := m0;
    HoldsNothing(m0, false);
    assert SettlementItems(rows[..0]) == [];
    for i := 0 to |rows|
      invariant Holds(m, m0, SettlementItems(rows[..i]), false)
    {
      var s := rows[i];
      ghost var items, n := SettlementItems(rows[..i + 1]), |SettlementItems(rows[..i])|;
      assert rows[..i + 1][..i] == rows[..i];
      assert items == SettlementItems(rows[..i]) + [Item(s.from, s.amount), Item(s.to, -s.amount)];
      assert items[..n] == SettlementItems(rows[..i]) && items[..n + 2] == items;
      HoldsMore(m, m0, items, n, false);
      m := Added(m, s.from, s.amount);
      HoldsMore(m, m0, items, n + 1, false);
      m := Added(m, s.to, -s.amount);
    }
    assert rows[..|rows|] == rows;
    HoldsMeans(m, m0, SettlementItems(rows), false);
    PartiesListed(rows);
  }

  lemma {:induction false} PartiesListed(rows: seq<Settlement>)
    ensures forall u :: Listed(SettlementItems(rows), u) <==> Party(rows, u)
  {
    if rows != [] {
      var n := |rows| - 1;
      var front, items := SettlementItems(rows[..n]), SettlementItems(rows);
      PartiesListed(rows[..n]);
      assert rows == rows[..n] + [rows[n]];
      forall u
        ensures Listed(items, u) <==> Party(rows, u)
      {
        SettlementSnoc(rows[..n], rows[n], u);
        ListedAppend(front, SettlementToEntries(rows[n].from, rows[n].to, rows[n].amount), u);
        assert Listed(SettlementToEntries(rows[n].from, rows[n].to, rows[n].amount), u) <==> rows[n].from == u || rows[n].to == u by {
          var pair := SettlementToEntries(rows[n].from, rows[n].to, rows[n].amount);
          assert pair[0].key == rows[n].from && pair[1].key == rows[n].to;
        }
      }
    }
  }

  lemma ListedAppend(s: seq<Item<UserId>>, t: seq<Item<UserId>>, u: UserId)
    ensures Listed(s + t, u) <==> Listed(s, u) || Listed(t, u)
  {
    var all := s + t;
    if i :| 0 <= i < |s| && s[i].key == u { assert all[i].key == u; }
    if i :| 0 <= i < |t| && t[i].key == u { assert all[|s| + i].key == u; }
  }

  /** `computeBalances`: zero for every member, then the three result sets folded in. The errors
      of the two sum queries are dropped, and with them their rows. */
  method ComputeBalances(members: seq<UserId>, paidRows: Option<seq<Item<UserId>>>, owedRows: Option<seq<Item<UserId>>>,
                         settleRows: seq<Settlement>, ghost g: Group) returns (m: map<UserId, Int64>)
    requires (set u | u in members) == g.members
    requires Answers(paidRows, PaidItems(g.expenses)) && Answers(owedRows, OwedItems(g.expenses))
    requires multiset(settleRows) == multiset(LiveSettlements(g.settlements))
    ensures forall u :: u in m <==> InMap(g, u)
    ensures forall u | u in m :: m[u] == Displayed(g, u)
  {
    hide *;
    m := Zeros(members);
    var paid, owed := RowsOf(paidRows), RowsOf(owedRows);
    ghost var m0 := m;
    m := FoldRows(m, paid, false);
    ghost var m1 := m;
    m := FoldRows(m, owed, true);
    ghost var m2 := m;
    m := FoldSettlements(m, settleRows);
    GetPresent(m);
    forall u
      ensures Get(m, u) == Displayed(g, u)
      ensures u in m <==> InMap(g, u)
    {
      MapIsDisplayed(members, paidRows, owedRows, settleRows, g, u);
      assert Get(m1, u) == Wrap(Get(m0, u) + Signed(false, Total(paid, u)));
      assert Get(m2, u) == Wrap(Get(m1, u) + Signed(true, Total(owed, u)));
      assert Get(m, u) == Wrap(Get(m2, u) + Total(SettlementItems(settleRows), u));
      Folded(Total(paid, u), Total(owed, u), Total(SettlementItems(settleRows), u));
    }
  }

  function RowsOf(rows: Option<seq<Item<UserId>>>): seq<Item<UserId>> {
    if rows.Some? then rows.value else []
  }

  lemma Folded(paid: int, owed: int, settled: int)
    ensures Wrap(Wrap(Wrap(0 + Signed(false, paid)) + Signed(true, owed)) + settled) == Wrap(paid - owed + settled)
  {
    hide Wrap;
    WrapAdd(paid, -owed);
    WrapAdd(paid - owed, settled);
  }

  lemma GetPresent(m: map<UserId, Int64>)
    ensures forall u | u in m :: m[u] == Get(m, u)
  {
  }

  lemma {:induction false} SettlementSnoc(front: seq<Settlement>, s: Settlement, u: UserId)
    ensures Total(SettlementItems(front + [s]), u) == Total(SettlementItems(front), u)
              + (if s.from == u then s.amount else 0) - (if s.to == u then s.amount else 0)
    ensures Party(front + [s], u) <==> Party(front, u) || s.from == u || s.to == u
  {
    var before := SettlementItems(front);
    assert (front + [s])[..|front|] == front;
    assert before + SettlementToEntries(s.from, s.to, s.amount) == (before + [Item(s.from, s.amount)]) + [Item(s.to, -s.amount)];
    TotalSnoc(before + [Item(s.from, s.amount)], Item(s.to, -s.amount), u);
    TotalSnoc(before, Item(s.from, s.amount), u);
    assert (front + [s])[|front|] == s;
    if j :| 0 <= j < |front| && (front[j].from == u || front[j].to == u) { assert (front + [s])[j] == front[j]; }
  }

  lemma {:induction false} SettlementsAppend(s: seq<Settlement>, t: seq<Settlement>)
    ensures SettlementItems(s + t) == SettlementItems(s) + SettlementItems(t)
  {
    if t == [] {
      assert s + t == s;
    } else {
      assert (s + t)[..|s + t| - 1] == s + t[..|t| - 1];
      SettlementsAppend(s, t[..|t| - 1]);
    }
  }

  lemma SettlementsWithout(s: seq<Settlement>, j: nat, u: UserId)
    requires j < |s|
    ensures Total(SettlementItems(s), u) == Total(SettlementItems(s[..j] + s[j + 1..]), u) + Total(SettlementItems([s[j]]), u)
  {
    SplitAt(s, j);
    SettlementsAppend(s[..j] + [s[j]], s[j + 1..]);
    SettlementsAppend(s[..j], [s[j]]);
    SettlementsAppend(s[..j], s[j + 1..]);
    TotalAppend(SettlementItems(s[..j]) + SettlementItems([s[j]]), SettlementItems(s[j + 1..]), u);
    TotalAppend(SettlementItems(s[..j]), SettlementItems([s[j]]), u);
    TotalAppend(SettlementItems(s[..j]), SettlementItems(s[j + 1..]), u);
  }

  lemma {:induction false} SettlementTotalMultiset(s: seq<Settlement>, t: seq<Settlement>, u: UserId)
    requires multiset(s) == multiset(t)
    ensures Total(SettlementItems(s), u) == Total(SettlementItems(t), u)
    decreases |s|
  {
    if s == [] {
      MembersAgree(s, t);
    } else {
      hide Total;
      hide SettlementItems;
      var j := SameWithout(s, t);
      SettlementTotalMultiset(s[1..], t[..j] + t[j + 1..], u);
      SettlementsWithout(s, 0, u);
      SettlementsWithout(t, j, u);
    }
  }

  lemma {:induction false} AnsweredTotal(rows: Option<seq<Item<UserId>>>, items: seq<Item<UserId>>, u: UserId)
    requires Answers(rows, items)
    ensures Total(RowsOf(rows), u) == Total(Counted(items), u)
    ensures Listed(RowsOf(rows), u) <==> Listed(Counted(items), u)
  {
    hide Summable;
    if rows.Some? {
      GroupedTotal(rows.value, items, u);
      GroupedListed(rows.value, items, u);
    }
  }

  lemma {:induction false} MapIsDisplayed(members: seq<UserId>, paidRows: Option<seq<Item<UserId>>>, owedRows: Option<seq<Item<UserId>>>,
                                          settleRows: seq<Settlement>, g: Group, u: UserId)
    requires (set u | u in members) == g.members
    requires Answers(paidRows, PaidItems(g.expenses)) && Answers(owedRows, OwedItems(g.expenses))
    requires multiset(settleRows) == multiset(LiveSettlements(g.settlements))
    ensures Wrap(Total(RowsOf(paidRows), u) - Total(RowsOf(owedRows), u) + Total(SettlementItems(settleRows), u)) == Displayed(g, u)
    ensures (u in members || Listed(RowsOf(paidRows), u) || Listed(RowsOf(owedRows), u) || Party(settleRows, u)) <==> InMap(g, u)
  {
    hide Wrap;
    hide Counted;
    hide Answers;
    hide RowsOf;
    hide PaidItems;
    hide OwedItems;
    hide LiveSettlements;
    hide SettlementItems;
    hide Listed;
    hide Party;
    AnsweredTotal(paidRows, PaidItems(g.expenses), u);
    AnsweredTotal(owedRows, OwedItems(g.expenses), u);
    SettlementTotalMultiset(settleRows, LiveSettlements(g.settlements), u);
    PartyMultiset(settleRows, LiveSettlements(g.settlements), u);
    assert u in members <==> u in g.members;
    hide Total;
  }

  lemma GroupedListed(rows: seq<Item<UserId>>, items: seq<Item<UserId>>, u: UserId)
    requires GroupedRows(rows, items)
    ensures Listed(rows, u) <==> Listed(items, u)
  {
  }

  lemma PartyMultiset(s: seq<Settlement>, t: seq<Settlement>, u: UserId)
    requires multiset(s) == multiset(t)
    ensures Party(s, u) <==> Party(t, u)
  {
    MembersAgree(s, t);
    if i :| 0 <= i < |s| && (s[i].from == u || s[i].to == u) { assert s[i] in t; }
    if i :| 0 <= i < |t| && (t[i].from == u || t[i].to == u) { assert t[i] in s; }
  }
}
