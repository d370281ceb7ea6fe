/** What each change to a group does to everybody's balance. */
module LedgerChanges {
  import opened Entities
  import opened Numbers
  import opened Options
  import opened Sorting
  import opened Grouping
  import opened Ledger
  import opened LedgerRuns

  // ----- rounding

  /** To the nearest integer, a half away from zero on either side. */
  lemma RoundMeans(x: real)
    ensures Round(x) as real - 0.5 <= x <= Round(x) as real + 0.5
    ensures x >= 0.0 ==> x < Round(x) as real + 0.5
    ensures Round(-x) == -Round(x)
  {
    var up, down := (x + 0.5).Floor, (-x + 0.5).Floor;
    assert up as real <= x + 0.5 < up as real + 1.0;
    assert down as real <= -x + 0.5 < down as real + 1.0;
  }

  /** The rate stored is a whole number of millionths, the nearest to the one given. */
  lemma StoredRateMeans(rate: real) returns (millionths: int)
    ensures StoredRate(rate) * 1000000.0 == millionths as real
    ensures millionths as real - 0.5 <= rate * 1000000.0 <= millionths as real + 0.5
  {
    millionths := Round(rate * 1000000.0);
    RoundMeans(rate * 1000000.0);
  }

  // ----- a balance, row by row

  /** What the user is owed for one expense: its amount when paid by them, less their shares, each
      converted at the expense's rate and rounded by itself. */
  function ExpensePart(e: Expense, u: UserId): int {
    var rate := match e.rate { case Some(r) => r case None => 1.0 };
    var owed := Sum(Map((s: Split) => if s.user == u then Converted(s.amount, rate) else 0, e.splits));
    if e.deleted then 0 else (if e.payer == u then Converted(e.amount, rate) else 0) - owed
  }

  function SettlementPart(s: Settlement, u: UserId): int {
    if s.deleted then 0 else (if s.from == u then s.amount else 0) - (if s.to == u then s.amount else 0)
  }

  function ExpenseParts(expenses: seq<Expense>, u: UserId): seq<int> { Map((e: Expense) => ExpensePart(e, u), expenses) }

  function SettlementParts(settlements: seq<Settlement>, u: UserId): seq<int> {
    Map((s: Settlement) => SettlementPart(s, u), settlements)
  }

  lemma {:induction false} ShareParts(splits: seq<Split>, rate: real, u: UserId)
    ensures Total(ShareItems(splits, rate), u) == Sum(Map((s: Split) => if s.user == u then Converted(s.amount, rate) else 0, splits))
  {
    var part := (s: Split) => if s.user == u then Converted(s.amount, rate) else 0;
    hide Converted;
    if splits != [] {
      var n := |splits| - 1;
      ShareParts(splits[..n], rate, u);
      assert ShareItems(splits, rate) == ShareItems(splits[..n], rate) + [Item(splits[n].user, Converted(splits[n].amount, rate))];
      TotalSnoc(ShareItems(splits[..n], rate), Item(splits[n].user, Converted(splits[n].amount, rate)), u);
      assert Map(part, splits) == Map(part, splits[..n]) + [part(splits[n])];
      SumSnoc(Map(part, splits[..n]), part(splits[n]));
    }
  }

  lemma {:induction false} ExpensesPart(expenses: seq<Expense>, u: UserId)
    ensures Total(PaidItems(expenses), u) - Total(OwedItems(expenses), u) == Sum(ExpenseParts(expenses, u))
  {
    if expenses != [] {
      var n := |expenses| - 1;
      var front, e := expenses[..n], expenses[n];
      ExpensesPart(front, u);
      ShareParts(e.splits, RateOf(e), u);
      assert ExpenseParts(expenses, u) == ExpenseParts(front, u) + [ExpensePart(e, u)];
      SumSnoc(ExpenseParts(front, u), ExpensePart(e, u));
      hide Converted;
      hide ExpenseParts;
      hide ShareItems;
      hide Sum;
      if !e.deleted {
        TotalSnoc(PaidItems(front), Item(e.payer, Converted(e.amount, RateOf(e))), u);
        TotalAppend(OwedItems(front), ShareItems(e.splits, RateOf(e)), u);
        hide Total;
      } else {
        assert PaidItems(expenses) == PaidItems(front) && OwedItems(expenses) == OwedItems(front);
      }
    }
  }

  lemma {:induction false} SettlementsPart(settlements: seq<Settlement>, u: UserId)
    ensures Total(SettlementItems(LiveSettlements(settlements)), u) == Sum(SettlementParts(settlements, u))
  {
    if settlements != [] {
      var n := |settlements| - 1;
      var front, s := settlements[..n], settlements[n];
      SettlementsPart(front, u);
      assert SettlementParts(settlements, u) == SettlementParts(front, u) + [SettlementPart(s, u)];
      SumSnoc(SettlementParts(front, u), SettlementPart(s, u));
      hide SettlementItems;
      hide SettlementParts;
      if !s.deleted {
        EntriesTotal(LiveSettlements(front), s, u);
      } else {
        assert LiveSettlements(front) + [] == LiveSettlements(front);
      }
    }
  }

  lemma {:induction false} EntriesTotal(live: seq<Settlement>, s: Settlement, u: UserId)
    ensures Total(SettlementItems(live + [s]), u) ==
              Total(SettlementItems(live), u) + (if s.from == u then s.amount else 0) - (if s.to == u then s.amount else 0)
  {
    var sent, received := Item(s.from, s.amount), Item(s.to, -s.amount);
    assert (live + [s])[..|live|] == live;
    assert SettlementItems(live + [s]) == SettlementItems(live) + [sent] + [received];
    TotalSnoc(SettlementItems(live), sent, u);
    TotalSnoc(SettlementItems(live) + [sent], received, u);
  }

  /** A user's balance is the sum of the parts of all live rows, and deleted ones have no part. */
  lemma NetIsSum(g: Group, u: UserId)
    ensures Net(g, u) == Sum(ExpenseParts(g.expenses, u)) + Sum(SettlementParts(g.settlements, u))
  {
    ExpensesPart(g.expenses, u);
    SettlementsPart(g.settlements, u);
  }

  // ----- changes

  /** What a change does to a user's balance. */
  ghost function Delta(g: Group, c: Change, u: UserId): int {
    match c
    case Create(_, _, _, _, e, _, _) => ExpensePart(e, u)
    case Update(i, _, _, _, _, e, _, _) => if i < |g.expenses| then ExpensePart(e, u) - ExpensePart(g.expenses[i], u) else 0
    case Delete(i) => if i < |g.expenses| then -ExpensePart(g.expenses[i], u) else 0
    case Materialize(_, _, _, _) => if RowOf(c).Some? then ExpensePart(RowOf(c).value, u) else 0
    case Settle(from, to, amount) => if u == from then amount else if u == to then -amount else 0
    case Resettle(j, amount) =>
      if j < |g.settlements| then
        var s := g.settlements[j];
        (if u == s.from then amount - s.amount else 0) - (if u == s.to then amount - s.amount else 0)
      else 0
    case Unsettle(j) => if j < |g.settlements| then -SettlementPart(g.settlements[j], u) else 0
    case Join(_) => 0
    case Leave(_) => 0
  }

  lemma MapSnoc<A(!new)>(f: A -> int, s: seq<A>, x: A)
    ensures Sum(Map(f, s + [x])) == Sum(Map(f, s)) + f(x)
  {
    assert Map(f, s + [x]) == Map(f, s) + [f(x)];
    SumSnoc(Map(f, s), f(x));
  }

  lemma MapUpdate<A(!new)>(f: A -> int, s: seq<A>, i: nat, x: A)
    requires i < |s|
    ensures Sum(Map(f, s[i := x])) == Sum(Map(f, s)) + f(x) - f(s[i])
  {
    assert Map(f, s[i := x]) == Map(f, s)[i := f(x)];
    SumUpdate(Map(f, s), i, f(x));
  }

  /** Every change moves every balance by just that: an expense counts from when it is written to
      when it is replaced or deleted, a settlement by its latest amount, and joining or leaving
      moves nothing. */
  lemma StepMovesBalances(g: Group, c: Change, g': Group, hash: string -> nat, u: UserId)
    requires Step(g, c, g', hash)
    ensures Net(g', u) == Net(g, u) + Delta(g, c, u)
  {
    NetIsSum(g, u);
    NetIsSum(g', u);
    var expense, settlement := (e: Expense) => ExpensePart(e, u), (s: Settlement) => SettlementPart(s, u);
    hide Net;
    hide Written;
    hide Sum;
    hide Map;
    match c
    case Create(_, _, _, _, e, _, _) => MapSnoc(expense, g.expenses, e);
    case Update(i, _, _, _, _, e, _, _) => MapUpdate(expense, g.expenses, i, e);
    case Delete(i) => MapUpdate(expense, g.expenses, i, g'.expenses[i]);
    case Materialize(_, _, _, _) => MapSnoc(expense, g.expenses, RowOf(c).value);
    case Settle(from, to, amount) => MapSnoc(settlement, g.settlements, Settlement(from, to, amount, false));
    case Resettle(j, amount) => MapUpdate(settlement, g.settlements, j, g'.settlements[j]);
    case Unsettle(j) => MapUpdate(settlement, g.settlements, j, g'.settlements[j]);
    case Join(_) =>
    case Leave(_) =>
  }

  ghost function Deltas(states: seq<Group>, changes: seq<Change>, u: UserId): (r: seq<int>)
    requires |states| > |changes|
    ensures |r| == |changes|
  {
    seq(|changes|, k requires 0 <= k < |changes| => Delta(states[k], changes[k], u))
  }

  /** So in every run a user's balance is the sum of what all its changes did to it. */
  lemma {:induction false} BalanceIsHistory(states: seq<Group>, changes: seq<Change>, hash: string -> nat, u: UserId)
    requires Run(states, changes, hash)
    ensures Net(states[|changes|], u) == Sum(Deltas(states, changes, u))
    decreases |changes|
  {
    if changes == [] {
      NetIsSum(states[0], u);
    } else {
      var n := |changes| - 1;
      assert Run(states[..n + 1], changes[..n], hash) && Step(states[n], changes[n], states[n + 1], hash);
      hide *;
      BalanceIsHistory(states[..n + 1], changes[..n], hash, u);
      StepMovesBalances(states[n], changes[n], states[n + 1], hash, u);
      DeltasNext(states, changes, u);
    }
  }

  lemma DeltasNext(states: seq<Group>, changes: seq<Change>, u: UserId)
    requires |states| == |changes| + 1 && changes != []
    ensures var n := |changes| - 1;
            && Sum(Deltas(states, changes, u)) == Sum(Deltas(states[..n + 1], changes[..n], u)) + Delta(states[n], changes[n], u)
            && states[..n + 1][n] == states[n]
  {
    hide Delta;
    hide Sum;
    var n := |changes| - 1;
    assert Deltas(states, changes, u) == Deltas(states[..n + 1], changes[..n], u) + [Delta(states[n], changes[n], u)];
    SumSnoc(Deltas(states[..n + 1], changes[..n], u), Delta(states[n], changes[n], u));
  }

  // ----- who is listed

  ghost predicate Paid(expenses: seq<Expense>, u: UserId) {
    exists i | 0 <= i < |expenses| :: !expenses[i].deleted && expenses[i].payer == u
  }

  ghost predicate HasShare(expenses: seq<Expense>, u: UserId) {
    exists i | 0 <= i < |expenses| :: !expenses[i].deleted && InSplits(expenses[i].splits, u)
  }

  ghost predicate InSplits(splits: seq<Split>, u: UserId) { exists j | 0 <= j < |splits| :: splits[j].user == u }

  ghost predicate Settled(settlements: seq<Settlement>, u: UserId) {
    exists i | 0 <= i < |settlements| :: !settlements[i].deleted && (settlements[i].from == u || settlements[i].to == u)
  }

  lemma ListedAppend(s: seq<Item<UserId>>, t: seq<Item<UserId>>, u: UserId)
    ensures Listed(s + t, u) <==> Listed(s, u) || Listed(t, u)
  {
    if i :| 0 <= i < |s| && s[i].key == u { assert (s + t)[i].key == u; }
    if i :| 0 <= i < |t| && t[i].key == u { assert (s + t)[|s| + i].key == u; }
  }

  lemma {:induction false} PaidListed(expenses: seq<Expense>, u: UserId)
    ensures Listed(PaidItems(expenses), u) <==> Paid(expenses, u)
  {
    if expenses != [] {
      var n := |expenses| - 1;
      var front, e := expenses[..n], expenses[n];
      PaidListed(front, u);
      hide Converted;
      var more := if e.deleted then [] else [Item(e.payer, Converted(e.amount, RateOf(e)))];
      ListedAppend(PaidItems(front), more, u);
      assert !e.deleted ==> more[0].key == e.payer;
      if i :| 0 <= i < |front| && !front[i].deleted && front[i].payer == u { assert expenses[i] == front[i]; }
      if i :| 0 <= i < |expenses| && !expenses[i].deleted && expenses[i].payer == u { assert i < n ==> front[i] == expenses[i]; }
    }
  }

  lemma {:induction false} SharesListed(expenses: seq<Expense>, u: UserId)
    ensures Listed(OwedItems(expenses), u) <==> HasShare(expenses, u)
  {
    if expenses != [] {
      var n := |expenses| - 1;
      var front, e := expenses[..n], expenses[n];
      SharesListed(front, u);
      hide Converted;
      var shares := ShareItems(e.splits, RateOf(e));
      ListedAppend(OwedItems(front), if e.deleted then [] else shares, u);
      assert Listed(shares, u) <==> InSplits(e.splits, u) by {
        assert forall j | 0 <= j < |shares| :: shares[j].key == e.splits[j].user;
      }
      hide InSplits;
      hide Listed;
      if i :| 0 <= i < |front| && !front[i].deleted && InSplits(front[i].splits, u) { assert expenses[i] == front[i]; }
      if i :| 0 <= i < |expenses| && !expenses[i].deleted && InSplits(expenses[i].splits, u) { assert i < n ==> front[i] == expenses[i]; }
    }
  }

  lemma {:induction false} SettlementsListed(settlements: seq<Settlement>, u: UserId)
    ensures Party(LiveSettlements(settlements), u) <==> Settled(settlements, u)
  {
    if settlements != [] {
      var n := |settlements| - 1;
      var front, s := settlements[..n], settlements[n];
      SettlementsListed(front, u);
      var before, after := LiveSettlements(front), LiveSettlements(settlements);
      if i :| 0 <= i < |before| && (before[i].from == u || before[i].to == u) { assert after[i] == before[i]; }
      if !s.deleted { assert after[|before|] == s; }
      if i :| 0 <= i < |front| && !front[i].deleted && (front[i].from == u || front[i].to == u) { assert settlements[i] == front[i]; }
      if i :| 0 <= i < |settlements| && !settlements[i].deleted && (settlements[i].from == u || settlements[i].to == u) {
        assert i < n ==> front[i] == settlements[i];
      }
    }
  }

  /** A sum query answers exactly when no converted row and no user's sum leaves bigint. */
  lemma {:induction false} AnswersMeans(rows: Option<seq<Item<UserId>>>, items: seq<Item<UserId>>)
    requires Answers(rows, items)
    ensures rows.Some? <==>
              (forall i | 0 <= i < |items| :: -TWO_63 <= items[i].value < TWO_63) && forall u: UserId :: InInt64(Total(items, u))
  {
    if rows.Some? {
      forall i | 0 <= i < |items|
        ensures -TWO_63 <= items[i].value < TWO_63
      {
        assert Castable(items, items[i].key);
      }
      assert forall u: UserId :: Castable(items, u) ==> InInt64(Total(items, u));
    } else if forall i | 0 <= i < |items| :: -TWO_63 <= items[i].value < TWO_63 {
      var u: UserId :| !Castable(items, u);
      assert !InInt64(Total(items, u));
    }
  }

  /** The map lists the members, whoever has sent or received a live settlement, and, from the
      queries that answer, payers of live expenses and holders of their shares; nobody else. */
  lemma InMapMeans(g: Group, u: UserId)
    ensures InMap(g, u) <==>
              || u in g.members || Settled(g.settlements, u)
              || (Summable(PaidItems(g.expenses)) && Paid(g.expenses, u))
              || (Summable(OwedItems(g.expenses)) && HasShare(g.expenses, u))
    ensures Mentioned(g, u) <==>
              u in g.members || Settled(g.settlements, u) || Paid(g.expenses, u) || HasShare(g.expenses, u)
  {
    PaidListed(g.expenses, u);
    SharesListed(g.expenses, u);
    SettlementsListed(g.settlements, u);
    hide Summable;
  }
}
