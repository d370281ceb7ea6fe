/** The aggregated balances agree with the plain ledger, and how far they can be from zero. */
module LedgerLaws {
  import opened Entities
  import opened Numbers
  import opened Options
  import opened Sorting
  import opened Grouping
  import opened Ledger

  // ----- the plain ledger

  function ExpenseEntries(payer: UserId, amount: int, splits: seq<Item<UserId>>): (r: seq<Item<UserId>>)
    ensures |r| == |splits| + 1
  {
    [Item(payer, amount)] + Negated(splits)
  }

  function Negated(items: seq<Item<UserId>>): (r: seq<Item<UserId>>)
    ensures |r| == |items|
  {
    Map((i: Item<UserId>) => Item(i.key, -i.value), items)
  }

  method ExpenseToEntries(payer: UserId, amount: int, splits: seq<Item<UserId>>) returns (entries: seq<Item<UserId>>)
    ensures entries == ExpenseEntries(payer, amount, splits)
  {
    entries := [Item(payer, amount)];
    for i := 0 to |splits|
      invariant entries == [Item(payer, amount)] + Negated(splits)[..i]
    {
      entries := entries + [Item(splits[i].key, -splits[i].value)];
    }
  }

  /** `m[e.UserID] += e.Amount`, in int64. */
  method ComputeNet(entries: seq<Item<UserId>>) returns (m: map<UserId, Int64>)
    ensures forall u :: u in m <==> Listed(entries, u)
    ensures forall u | u in m :: m[u] == Wrap(Total(entries, u))
  {
    hide Wrap;
    hide Total;
    hide Listed;
    m := FoldRows(map[], entries, false);
    GetPresent(m);
  }

  /** The split rows of an expense as ledger items, in its own currency. */
  function RawShares(splits: seq<Split>): (r: seq<Item<UserId>>)
    ensures |r| == |splits|
  {
    Map((s: Split) => Item(s.user, s.amount), splits)
  }

  /** The concatenated entries of the live expenses and settlements. */
  function Entries(g: Group): seq<Item<UserId>> {
    ExpenseLedger(g.expenses) + SettlementItems(LiveSettlements(g.settlements))
  }

  function ExpenseLedger(expenses: seq<Expense>): seq<Item<UserId>> {
    if expenses == [] then []
    else
      var e := expenses[|expenses| - 1];
      ExpenseLedger(expenses[..|expenses| - 1]) + if e.deleted then [] else ExpenseEntries(e.payer, e.amount, RawShares(e.splits))
  }

  ghost predicate Unrated(expenses: seq<Expense>) {
    forall i | 0 <= i < |expenses| :: !expenses[i].deleted ==> expenses[i].rate.None?
  }

  lemma {:induction false} NegatedTotal(items: seq<Item<UserId>>, u: UserId)
    ensures Total(Negated(items), u) == -Total(items, u)
  {
    if items != [] {
      NegatedTotal(items[..|items| - 1], u);
      assert Negated(items)[..|items| - 1] == Negated(items[..|items| - 1]);
    }
  }

  lemma {:induction false} ExpenseEntriesTotal(payer: UserId, amount: int, splits: seq<Item<UserId>>, u: UserId)
    ensures Total(ExpenseEntries(payer, amount, splits), u) == (if payer == u then amount else 0) - Total(splits, u)
  {
    TotalAppend([Item(payer, amount)], Negated(splits), u);
    assert [Item(payer, amount)] == [] + [Item(payer, amount)];
    TotalSnoc([], Item(payer, amount), u);
    NegatedTotal(splits, u);
  }

  lemma UnratedShares(splits: seq<Split>)
    ensures ShareItems(splits, 1.0) == RawShares(splits)
  {
    forall i | 0 <= i < |splits|
      ensures ShareItems(splits, 1.0)[i] == RawShares(splits)[i]
    {
      RoundExact(splits[i].amount);
    }
  }

  lemma {:induction false} UnratedLedger(expenses: seq<Expense>, u: UserId)
    requires Unrated(expenses)
    ensures Total(ExpenseLedger(expenses), u) == Total(PaidItems(expenses), u) - Total(OwedItems(expenses), u)
  {
    if expenses != [] {
      var n := |expenses| - 1;
      var front, e := expenses[..n], expenses[n];
      assert expenses == front + [e] && Unrated(front) && (!e.deleted ==> e.rate.None?);
      hide *;
      UnratedLedger(front, u);
      LedgerStep(front, e, u);
    }
  }

  lemma {:induction false} LedgerStep(front: seq<Expense>, e: Expense, u: UserId)
    requires !e.deleted ==> e.rate.None?
    ensures Total(ExpenseLedger(front + [e]), u) - Total(PaidItems(front + [e]), u) + Total(OwedItems(front + [e]), u)
         == Total(ExpenseLedger(front), u) - Total(PaidItems(front), u) + Total(OwedItems(front), u)
  {
    assert (front + [e])[..|front|] == front;
    if e.deleted {
      assert PaidItems(front) + [] == PaidItems(front) && OwedItems(front) + [] == OwedItems(front);
      assert ExpenseLedger(front) + [] == ExpenseLedger(front);
    } else {
      TotalAppend(ExpenseLedger(front), ExpenseEntries(e.payer, e.amount, RawShares(e.splits)), u);
      ExpenseEntriesTotal(e.payer, e.amount, RawShares(e.splits), u);
      RoundExact(e.amount);
      TotalSnoc(PaidItems(front), Item(e.payer, e.amount), u);
      UnratedShares(e.splits);
      TotalAppend(OwedItems(front), RawShares(e.splits), u);
    }
  }

  /** Without exchange rates, the aggregate queries and the plain ledger give everyone the
      same balance. */
  lemma {:induction false} AggregateIsComputeNet(g: Group, u: UserId)
    requires Unrated(g.expenses)
    ensures Net(g, u) == Total(Entries(g), u)
  {
    UnratedLedger(g.expenses, u);
    TotalAppend(ExpenseLedger(g.expenses), SettlementItems(LiveSettlements(g.settlements)), u);
  }

  lemma {:induction false} PaidSnoc(front: seq<Expense>, e: Expense, u: UserId)
    requires !e.deleted
    ensures Total(PaidItems(front + [e]), u) == Total(PaidItems(front), u) + if e.payer == u then Converted(e.amount, RateOf(e)) else 0
  {
    assert (front + [e])[..|front|] == front;
    TotalSnoc(PaidItems(front), Item(e.payer, Converted(e.amount, RateOf(e))), u);
  }

  lemma {:induction false} OwedSnoc(front: seq<Expense>, e: Expense, u: UserId)
    requires !e.deleted
    ensures Total(OwedItems(front + [e]), u) == Total(OwedItems(front), u) + Total(ShareItems(e.splits, RateOf(e)), u)
  {
    assert (front + [e])[..|front|] == front;
    TotalAppend(OwedItems(front), ShareItems(e.splits, RateOf(e)), u);
  }

  // ----- GET /me/balances

  function SentItems(live: seq<Settlement>): seq<Item<UserId>> {
    Map((s: Settlement) => Item(s.from, s.amount), live)
  }

  function ReceivedItems(live: seq<Settlement>): seq<Item<UserId>> {
    Map((s: Settlement) => Item(s.to, s.amount), live)
  }

  /** The `balance` column of GetMyGroupBalances: paid - owed + recv - sent, where its `recv`
      sums settlements by from_user and its `sent` by to_user. */
  function MyBalance(g: Group, u: UserId): int {
    var live := LiveSettlements(g.settlements);
    Total(PaidItems(g.expenses), u) - Total(OwedItems(g.expenses), u) + Total(SentItems(live), u) - Total(ReceivedItems(live), u)
  }

  lemma {:induction false} SentMinusReceived(live: seq<Settlement>, u: UserId)
    ensures Total(SettlementItems(live), u) == Total(SentItems(live), u) - Total(ReceivedItems(live), u)
  {
    if live != [] {
      var n := |live| - 1;
      var front, s := live[..n], live[n];
      SentMinusReceived(front, u);
      assert SentItems(live)[..n] == SentItems(front) && ReceivedItems(live)[..n] == ReceivedItems(front);
      assert live == front + [s];
      SettlementSnoc(front, s, u);
    }
  }

  /** The balance column of the overview query is the balance of the map. */
  lemma MyBalanceAgrees(g: Group, u: UserId)
    ensures MyBalance(g, u) == Net(g, u)
  {
    SentMinusReceived(LiveSettlements(g.settlements), u);
  }

  // ----- how far from zero the balances sum

  function ShareSum(splits: seq<Split>, rate: real): int {
    Sum(Amounts(ShareItems(splits, rate)))
  }

  function SplitSum(splits: seq<Split>): int {
    Sum(Map((s: Split) => s.amount, splits))
  }

  /** What rounding adds to or takes from the group for one live expense. */
  function Drift(e: Expense): int {
    Converted(e.amount, RateOf(e)) - ShareSum(e.splits, RateOf(e))
  }

  function TotalDrift(expenses: seq<Expense>): int {
    if expenses == [] then 0
    else TotalDrift(expenses[..|expenses| - 1]) + if expenses[|expenses| - 1].deleted then 0 else Drift(expenses[|expenses| - 1])
  }

  /** The bound: half the number of splits, over live rated expenses. */
  function DriftBound(expenses: seq<Expense>): int {
    if expenses == [] then 0
    else
      var e := expenses[|expenses| - 1];
      DriftBound(expenses[..|expenses| - 1]) + if e.deleted || e.rate.None? then 0 else |e.splits| / 2
  }

  /** What every stored expense satisfies (see LedgerRuns). */
  ghost predicate NonNegative(e: Expense) {
    && e.amount > 0
    && (forall i | 0 <= i < |e.splits| :: e.splits[i].amount >= 0)
    && (e.rate.Some? ==> e.rate.value >= 0.0)
  }

  /** Its rows add up, too. */
  ghost predicate Consistent(e: Expense) {
    NonNegative(e) && SplitSum(e.splits) == e.amount
  }

  lemma RoundNonNegative(x: real)
    requires x >= 0.0
    ensures Round(x) as real - 0.5 <= x < Round(x) as real + 0.5
  {
    var f := (x + 0.5).Floor;
    assert f as real <= x + 0.5 < f as real + 1.0;
  }

  lemma ProductNonNegative(n: int, rate: real)
    requires n >= 0 && rate >= 0.0
    ensures n as real * rate >= 0.0
  {
  }

  lemma ShareStep(splits: seq<Split>, rate: real)
    requires splits != []
    ensures var front, s := splits[..|splits| - 1], splits[|splits| - 1];
            && SplitSum(splits) == SplitSum(front) + s.amount
            && ShareSum(splits, rate) == ShareSum(front, rate) + Converted(s.amount, rate)
  {
    var n := |splits| - 1;
    assert Map((s: Split) => s.amount, splits)[..n] == Map((s: Split) => s.amount, splits[..n]);
    assert Amounts(ShareItems(splits, rate))[..n] == Amounts(ShareItems(splits[..n], rate));
  }

  lemma Distribute(a: int, b: int, rate: real)
    ensures (a + b) as real * rate == a as real * rate + b as real * rate
  {
  }

  /** n rounded shares of a total are within n/2 of it, strictly so from above. */
  lemma {:induction false} SharesDrift(splits: seq<Split>, rate: real)
    requires rate >= 0.0 && forall i | 0 <= i < |splits| :: splits[i].amount >= 0
    ensures SplitSum(splits) >= 0
    ensures ShareSum(splits, rate) as real - |splits| as real / 2.0 <= SplitSum(splits) as real * rate
    ensures SplitSum(splits) as real * rate <= ShareSum(splits, rate) as real + |splits| as real / 2.0
    ensures splits != [] ==> SplitSum(splits) as real * rate < ShareSum(splits, rate) as real + |splits| as real / 2.0
  {
    if splits != [] {
      hide *;
      var n := |splits| - 1;
      var front, s := splits[..n], splits[n];
      SharesDrift(front, rate);
      ShareStep(splits, rate);
      RoundedWithin(s.amount, rate);
      Distribute(SplitSum(front), s.amount, rate);
    }
  }

  lemma RoundedWithin(amount: int, rate: real)
    requires amount >= 0 && rate >= 0.0
    ensures Converted(amount, rate) as real - 0.5 <= amount as real * rate < Converted(amount, rate) as real + 0.5
  {
    ProductNonNegative(amount, rate);
    RoundNonNegative(amount as real * rate);
  }

  lemma HalfApart(d: int, n: nat)
    requires d as real < (n as real + 1.0) / 2.0 && -d as real < (n as real + 1.0) / 2.0
    ensures Abs(d) <= n / 2
  {
    assert 2 * d < n + 1 && -2 * d < n + 1;
  }

  lemma NoRowsNoSum(splits: seq<Split>)
    ensures splits == [] ==> SplitSum(splits) == 0
  {
  }

  lemma RatedDrift(e: Expense)
    requires Consistent(e) && e.rate.Some?
    ensures Abs(Drift(e)) <= |e.splits| / 2
  {
    var r, n, d := e.rate.value, |e.splits|, Drift(e);
    NoRowsNoSum(e.splits);
    hide ShareSum;
    hide SplitSum;
    SharesDrift(e.splits, r);
    RoundedWithin(e.amount, r);
    hide Converted;
    // both errors together stay strictly below (n + 1) / 2
    assert d as real < (n as real + 1.0) / 2.0;
    assert -d as real < (n as real + 1.0) / 2.0;
    HalfApart(d, n);
  }

  /** One expense shifts the group's total by at most half its number of splits, and by
      nothing without a rate. */
  lemma ExpenseDrift(e: Expense)
    requires Consistent(e)
    ensures e.rate.None? ==> Drift(e) == 0
    ensures e.rate.Some? ==> Abs(Drift(e)) <= |e.splits| / 2
  {
    if e.rate.None? {
      RoundExact(e.amount);
      UnratedShares(e.splits);
      assert Amounts(RawShares(e.splits)) == Map((s: Split) => s.amount, e.splits);
    } else {
      RatedDrift(e);
    }
  }

  lemma {:induction false} DriftWithin(expenses: seq<Expense>)
    requires forall i | 0 <= i < |expenses| :: Consistent(expenses[i])
    ensures Abs(TotalDrift(expenses)) <= DriftBound(expenses)
  {
    if expenses != [] {
      DriftWithin(expenses[..|expenses| - 1]);
      ExpenseDrift(expenses[|expenses| - 1]);
    }
  }

  /** n split rows of 1 at rate 0.5 reach the bound: each rounds up, the total only once. */
  lemma {:induction false} DriftBoundReached(n: nat)
    requires n > 0
    ensures var splits := seq(n, _ => Split(0, 1));
            var e := Expense(0, n, Some(0.5), splits, false);
            Consistent(e) && Abs(Drift(e)) == n / 2
  {
    var splits := seq(n, _ => Split(0, 1));
    UnitSums(splits);
    assert n as real * 0.5 == n as real / 2.0;
    assert Converted(n, 0.5) == (n + 1) / 2 by {
      var k := (n + 1) / 2;
      assert 2 * k <= n + 1 < 2 * k + 2;
      assert (n as real * 0.5 + 0.5).Floor == k;
    }
  }

  lemma {:induction false} UnitSums(splits: seq<Split>)
    requires forall i | 0 <= i < |splits| :: splits[i].amount == 1
    ensures SplitSum(splits) == |splits| && ShareSum(splits, 0.5) == |splits|
  {
    if splits != [] {
      var n := |splits| - 1;
      UnitSums(splits[..n]);
      assert Map((s: Split) => s.amount, splits)[..n] == Map((s: Split) => s.amount, splits[..n]);
      assert Amounts(ShareItems(splits, 0.5))[..n] == Amounts(ShareItems(splits[..n], 0.5));
      assert 1 as real * 0.5 == 0.5;
      assert Converted(1, 0.5) == 1;
    }
  }

  // ----- the sum over the map

  lemma {:induction false} ExpenseSumStep(front: seq<Expense>, e: Expense)
    requires !e.deleted
    ensures Sum(Amounts(PaidItems(front + [e]))) == Sum(Amounts(PaidItems(front))) + Converted(e.amount, RateOf(e))
    ensures Sum(Amounts(OwedItems(front + [e]))) == Sum(Amounts(OwedItems(front))) + ShareSum(e.splits, RateOf(e))
  {
    assert (front + [e])[..|front|] == front;
    hide Converted;
    hide Sum;
    var p, shares := Item(e.payer, Converted(e.amount, RateOf(e))), ShareItems(e.splits, RateOf(e));
    assert Amounts(PaidItems(front) + [p]) == Amounts(PaidItems(front)) + [p.value];
    SumSnoc(Amounts(PaidItems(front)), p.value);
    assert Amounts(OwedItems(front) + shares) == Amounts(OwedItems(front)) + Amounts(shares);
    SumAppend(Amounts(OwedItems(front)), Amounts(shares));
  }

  lemma {:induction false} ExpenseSums(expenses: seq<Expense>)
    ensures Sum(Amounts(PaidItems(expenses))) - Sum(Amounts(OwedItems(expenses))) == TotalDrift(expenses)
  {
    if expenses != [] {
      var n := |expenses| - 1;
      var front, e := expenses[..n], expenses[n];
      ExpenseSums(front);
      assert expenses == front + [e];
      if e.deleted {
        assert PaidItems(front) + [] == PaidItems(front) && OwedItems(front) + [] == OwedItems(front);
      } else {
        hide Sum;
        hide PaidItems;
        hide OwedItems;
        ExpenseSumStep(front, e);
        hide ShareSum;
        hide Converted;
      }
    }
  }

  lemma {:induction false} SettlementSums(live: seq<Settlement>)
    ensures Sum(Amounts(SettlementItems(live))) == 0
  {
    if live != [] {
      var n := |live| - 1;
      var front, s := SettlementItems(live[..n]), live[n];
      SettlementSums(live[..n]);
      assert Amounts(front + SettlementToEntries(s.from, s.to, s.amount)) == (Amounts(front) + [s.amount]) + [-s.amount];
      SumSnoc(Amounts(front) + [s.amount], -s.amount);
      SumSnoc(Amounts(front), s.amount);
    }
  }

  /** `users` lists the keys of the balance map. */
  ghost predicate KeysOf(users: seq<UserId>, g: Group) {
    && NoRepeats(users)
    && forall u :: u in users <==> Mentioned(g, u)
  }

  function Nets(g: Group, users: seq<UserId>): (r: seq<int>)
    ensures |r| == |users|
  {
    seq(|users|, i requires 0 <= i < |users| => Net(g, users[i]))
  }

  /** Nobody outside the rows and the members has a balance. */
  lemma NetIsMentioned(g: Group, u: UserId)
    requires Net(g, u) != 0
    ensures Mentioned(g, u)
  {
    var paid, owed := PaidItems(g.expenses), OwedItems(g.expenses);
    var live := LiveSettlements(g.settlements);
    if !Listed(paid, u) && !Listed(owed, u) && !Party(live, u) {
      TotalAbsent(paid, u);
      TotalAbsent(owed, u);
      SettlementKeys(live);
      TotalAbsent(SettlementItems(live), u);
    }
  }

  lemma {:induction false} SettlementKeys(live: seq<Settlement>)
    ensures forall i | 0 <= i < |SettlementItems(live)| :: Party(live, SettlementItems(live)[i].key)
  {
    if live != [] {
      var n := |live| - 1;
      SettlementKeys(live[..n]);
      var items := SettlementItems(live);
      var front := SettlementItems(live[..n]);
      forall i | 0 <= i < |items|
        ensures Party(live, items[i].key)
      {
        if i < |front| {
          assert Party(live[..n], front[i].key);
          var j :| 0 <= j < n && (live[..n][j].from == front[i].key || live[..n][j].to == front[i].key);
          assert live[j] == live[..n][j];
        } else {
          assert items[i].key == live[n].from || items[i].key == live[n].to;
        }
      }
    }
  }

  lemma {:induction false} NegatedSum(items: seq<Item<UserId>>)
    ensures Sum(Amounts(Negated(items))) == -Sum(Amounts(items))
  {
    if items != [] {
      var n := |items| - 1;
      NegatedSum(items[..n]);
      assert Amounts(Negated(items))[..n] == Amounts(Negated(items[..n]));
      assert Amounts(items)[..n] == Amounts(items[..n]);
    }
  }

  /** All amounts of a group, signed. */
  function Movements(g: Group): seq<Item<UserId>> {
    PaidItems(g.expenses) + Negated(OwedItems(g.expenses)) + SettlementItems(LiveSettlements(g.settlements))
  }

  lemma {:induction false} MovementsTotal(g: Group, u: UserId)
    ensures Total(Movements(g), u) == Net(g, u)
  {
    var paid, owed := PaidItems(g.expenses), OwedItems(g.expenses);
    TotalAppend(paid + Negated(owed), SettlementItems(LiveSettlements(g.settlements)), u);
    TotalAppend(paid, Negated(owed), u);
    NegatedTotal(owed, u);
  }

  lemma MovementsSum(g: Group)
    ensures Sum(Amounts(Movements(g))) == TotalDrift(g.expenses)
  {
    var paid, owed := PaidItems(g.expenses), OwedItems(g.expenses);
    var settled := SettlementItems(LiveSettlements(g.settlements));
    hide Sum;
    assert Amounts(Movements(g)) == Amounts(paid) + Amounts(Negated(owed)) + Amounts(settled);
    SumAppend(Amounts(paid) + Amounts(Negated(owed)), Amounts(settled));
    SumAppend(Amounts(paid), Amounts(Negated(owed)));
    NegatedSum(owed);
    ExpenseSums(g.expenses);
    SettlementSums(LiveSettlements(g.settlements));
  }

  /** The balances of any users, nobody with a balance left out, sum to the drift. */
  lemma NetsSum(g: Group, users: seq<UserId>)
    requires NoRepeats(users) && forall u :: Net(g, u) != 0 ==> u in users
    ensures Sum(Nets(g, users)) == TotalDrift(g.expenses)
  {
    forall u
      ensures Total(Movements(g), u) == Net(g, u)
    {
      MovementsTotal(g, u);
    }
    MovementsSum(g);
    hide Net;
    hide Movements;
    hide Total;
    hide Sum;
    SparseSum(Movements(g), users);
    assert Totals(Movements(g), users) == Nets(g, users);
  }

  /** Everyone's balances, former members included, sum to the rounding drift of the live
      expenses: settlements and unrated expenses cancel out. */
  lemma BalancesSumToDrift(g: Group, users: seq<UserId>)
    requires KeysOf(users, g)
    ensures Sum(Nets(g, users)) == TotalDrift(g.expenses)
  {
    forall u | Net(g, u) != 0
      ensures u in users
    {
      NetIsMentioned(g, u);
    }
    hide Net;
    hide Mentioned;
    NetsSum(g, users);
  }

  // ----- when the handler's map is the ledger

  /** What the failed queries leave out of a user's balance. */
  ghost function Dropped(g: Group, u: UserId): int {
    (if Summable(PaidItems(g.expenses)) then 0 else Total(PaidItems(g.expenses), u))
    - (if Summable(OwedItems(g.expenses)) then 0 else Total(OwedItems(g.expenses), u))
  }

  /** Every balance fits int64, and the rows of failed queries, if any, do not matter. */
  ghost predicate Reliable(g: Group) {
    forall u :: InInt64(Net(g, u)) && Dropped(g, u) % TWO_64 == 0
  }

  ghost predicate ShowsLedger(g: Group) {
    forall u :: Displayed(g, u) == Net(g, u)
  }

  lemma DisplayedIsNetIff(g: Group, u: UserId)
    ensures Displayed(g, u) == Wrap(Net(g, u) - Dropped(g, u))
    ensures Displayed(g, u) == Net(g, u) <==> InInt64(Net(g, u)) && Dropped(g, u) % TWO_64 == 0
  {
    hide Summable;
    hide PaidItems;
    hide OwedItems;
    hide SettlementItems;
    EmptyTotal(u);
    assert Displayed(g, u) == Wrap(Net(g, u) - Dropped(g, u));
    WrapIff(Net(g, u) - Dropped(g, u), Net(g, u));
    hide Wrap;
    NegatedMod(Dropped(g, u));
  }

  lemma {:induction false} EmptyTotal(u: UserId)
    ensures Total<UserId>([], u) == 0
  {
  }

  lemma NegatedMod(x: int)
    ensures (-x) % TWO_64 == 0 <==> x % TWO_64 == 0
  {
  }

  /** The map the handler builds shows everyone the ledger's balance if and only if every balance
      fits int64 and what failed queries leave out is a multiple of 2^64. */
  lemma ShowsLedgerIff(g: Group)
    ensures ShowsLedger(g) <==> Reliable(g)
  {
    forall u
      ensures Displayed(g, u) == Net(g, u) <==> InInt64(Net(g, u)) && Dropped(g, u) % TWO_64 == 0
    {
      DisplayedIsNetIff(g, u);
    }
    hide Displayed;
    hide Net;
    hide Dropped;
    hide InInt64;
  }

  /** With no negative row a key's casts fail exactly when its sum reaches 2^63. */
  lemma {:induction false} CastableIff(items: seq<Item<UserId>>, u: UserId)
    requires forall i | 0 <= i < |items| :: items[i].value >= 0
    ensures Castable(items, u) <==> Total(items, u) < TWO_63
  {
    TotalNonNegative(items, u);
    forall i | 0 <= i < |items| && items[i].key == u
      ensures 0 <= items[i].value <= Total(items, u)
    {
      TotalAtLeast(items, i);
    }
  }

  lemma {:induction false} SummableIff(items: seq<Item<UserId>>)
    requires forall i | 0 <= i < |items| :: items[i].value >= 0
    ensures Summable(items) <==> forall u: UserId :: Total(items, u) < TWO_63
  {
    hide Castable;
    hide Total;
    if forall u: UserId :: Total(items, u) < TWO_63 {
      forall u: UserId
        ensures Castable(items, u)
      {
        CastableIff(items, u);
      }
    } else {
      var u: UserId :| Total(items, u) >= TWO_63;
      CastableIff(items, u);
    }
  }

  /** `users` lists the keys of the map the handler builds. */
  ghost predicate MapKeys(users: seq<UserId>, g: Group) {
    && NoRepeats(users)
    && forall u :: u in users <==> InMap(g, u)
  }

  ghost function Displays(g: Group, users: seq<UserId>): (r: seq<int>)
    ensures |r| == |users|
  {
    seq(|users|, i requires 0 <= i < |users| => Displayed(g, users[i]))
  }

  /** Users the map leaves out are shown nothing. */
  lemma OutsideMap(g: Group, u: UserId)
    requires !InMap(g, u)
    ensures Displayed(g, u) == 0
  {
    var paid, owed := Counted(PaidItems(g.expenses)), Counted(OwedItems(g.expenses));
    var live := LiveSettlements(g.settlements);
    TotalAbsent(paid, u);
    TotalAbsent(owed, u);
    SettlementKeys(live);
    TotalAbsent(SettlementItems(live), u);
  }

  /** A reliable map's balances sum to the drift, too. */
  lemma DisplaysSum(g: Group, users: seq<UserId>)
    requires MapKeys(users, g) && Reliable(g)
    ensures Displays(g, users) == Nets(g, users) && Sum(Displays(g, users)) == TotalDrift(g.expenses)
  {
    ShowsLedgerIff(g);
    hide Displayed;
    hide Net;
    hide Reliable;
    hide Sum;
    forall u | Net(g, u) != 0
      ensures u in users
    {
      assert Displayed(g, u) == Net(g, u);
      if !InMap(g, u) { OutsideMap(g, u); }
    }
    hide InMap;
    NetsSum(g, users);
    assert Displays(g, users) == Nets(g, users);
  }
}
