/** What the greedy settlement promises. */
module DebtsLaws {
  import opened Entities
  import opened Numbers
  import opened Sorting
  import opened Grouping
  import opened Debts

  // ----- balances, transfers and entries as keyed amounts

  function BalanceItem(b: Balance): Item<UserId> { Item(b.user, b.amount) }
  function EntryItem(e: Entry): Item<UserId> { Item(e.id, e.amount) }

  function BalanceItems(balances: seq<Balance>): seq<Item<UserId>> { Map(BalanceItem, balances) }
  function EntryItems(es: seq<Entry>): seq<Item<UserId>> { Map(EntryItem, es) }

  /** A recorded transfer: the sender's balance rises, the receiver's falls. */
  function TransferItems(debts: seq<Debt>): seq<Item<UserId>> {
    if debts == [] then []
    else [Item(debts[0].from, debts[0].amount), Item(debts[0].to, -debts[0].amount)] + TransferItems(debts[1..])
  }

  function BalanceOf(balances: seq<Balance>, u: UserId): int { Total(BalanceItems(balances), u) }
  function Owed(es: seq<Entry>, u: UserId): int { Total(EntryItems(es), u) }

  /** A user's balance once the transfers are recorded. */
  function Residual(balances: seq<Balance>, debts: seq<Debt>, u: UserId): int {
    BalanceOf(balances, u) + Total(TransferItems(debts), u)
  }

  function SumOf(es: seq<Entry>): int { Sum(Amounts(EntryItems(es))) }

  lemma {:induction false} Already(es: seq<Entry>)
    requires Sorted(es, Before())
    ensures SortBy(es, Before()) == es
  {
    BeforeOrders(es);
    SortBySorted(es, Before());
    SortedUnique(es, SortBy(es, Before()), Before());
  }

  // ----- at most c + d - 1 edges

  lemma {:induction false} EdgeCount(cs: seq<Entry>, ds: seq<Entry>)
    requires Positive(cs) && Positive(ds)
    ensures cs == [] || ds == [] ==> Settle(cs, ds) == []
    ensures cs != [] && ds != [] ==> |Settle(cs, ds)| <= |cs| + |ds| - 1
    decreases |cs| + |ds|
  {
    if cs != [] && ds != [] {
      var amount := Min(cs[0].amount, ds[0].amount);
      EdgeCount(Reduce(cs, amount), Reduce(ds, amount));
    }
  }

  function Ids(es: seq<Entry>): set<UserId> { set e | e in es :: e.id }

  ghost predicate EdgeBetween(e: Debt, from: set<UserId>, to: set<UserId>, bound: int) {
    e.from in from && e.to in to && 0 < e.amount <= bound
  }

  lemma ReduceIds(es: seq<Entry>, amount: int)
    requires es != []
    ensures Ids(Reduce(es, amount)) <= Ids(es) && es[0].id in Ids(es)
  {
    var r := Reduce(es, amount);
    forall e | e in r
      ensures e.id in Ids(es)
    {
      assert es[0] in es;
      if e !in es[1..] { assert e.id == es[0].id; }
    }
    assert es[0] in es;
  }

  /** Every edge runs from a debtor to a creditor and moves a positive amount, no more than
      the largest credit, so no int64 difference overflows. */
  lemma {:induction false} EdgeShape(cs: seq<Entry>, ds: seq<Entry>, bound: int)
    requires Positive(cs) && Positive(ds)
    requires forall i | 0 <= i < |cs| :: cs[i].amount <= bound
    ensures forall k | 0 <= k < |Settle(cs, ds)| :: EdgeBetween(Settle(cs, ds)[k], Ids(ds), Ids(cs), bound)
    decreases |cs| + |ds|
  {
    if cs != [] && ds != [] {
      hide Ids;
      var amount := Min(cs[0].amount, ds[0].amount);
      var cs', ds' := Reduce(cs, amount), Reduce(ds, amount);
      EdgeShape(cs', ds', bound);
      ReduceIds(cs, amount);
      ReduceIds(ds, amount);
    }
  }

  // ----- recording the edges

  lemma OwedCons(e: Entry, es: seq<Entry>, u: UserId)
    ensures Owed([e] + es, u) == Owed(es, u) + if e.id == u then e.amount else 0
    ensures SumOf([e] + es) == SumOf(es) + e.amount
  {
    var item, tail := EntryItem(e), EntryItems(es);
    assert EntryItems([e] + es) == [item] + tail;
    TotalAppend([item], tail, u);
    TotalSnoc([], item, u);
    assert [] + [item] == [item];
    assert Amounts([item] + tail) == [item.value] + Amounts(tail);
    SumCons(item.value, Amounts(tail));
  }

  lemma ReduceOwed(es: seq<Entry>, amount: int, u: UserId)
    requires es != []
    ensures Owed(Reduce(es, amount), u) == Owed(es, u) - if es[0].id == u then amount else 0
    ensures SumOf(Reduce(es, amount)) == SumOf(es) - amount
  {
    hide Owed;
    hide SumOf;
    assert es == [es[0]] + es[1..];
    OwedCons(es[0], es[1..], u);
    OwedCons(Entry(es[0].id, es[0].amount - amount), es[1..], u);
  }

  lemma {:induction false} TransferStep(d: Debt, rest: seq<Debt>, u: UserId)
    ensures Total(TransferItems([d] + rest), u)
         == Total(TransferItems(rest), u) + (if d.from == u then d.amount else 0) - (if d.to == u then d.amount else 0)
  {
    var a, b := Item(d.from, d.amount), Item(d.to, -d.amount);
    assert ([d] + rest)[1..] == rest;
    TotalAppend([a, b], TransferItems(rest), u);
    assert [a, b] == ([] + [a]) + [b];
    TotalSnoc([] + [a], b, u);
    TotalSnoc([], a, u);
  }

  /** The edges move exactly what the two lists lose. */
  lemma {:induction false} FlowBalance(cs: seq<Entry>, ds: seq<Entry>, u: UserId)
    ensures var rest := Rest(cs, ds);
            Owed(cs, u) - Owed(ds, u) + Total(TransferItems(Settle(cs, ds)), u) == Owed(rest.0, u) - Owed(rest.1, u)
    ensures SumOf(cs) - SumOf(ds) == SumOf(Rest(cs, ds).0) - SumOf(Rest(cs, ds).1)
    decreases |cs| + |ds|
  {
    if cs != [] && ds != [] {
      var amount := Min(cs[0].amount, ds[0].amount);
      var cs', ds' := Reduce(cs, amount), Reduce(ds, amount);
      FlowBalance(cs', ds', u);
      ReduceOwed(cs, amount, u);
      ReduceOwed(ds, amount, u);
      TransferStep(Debt(ds[0].id, cs[0].id, amount), Settle(cs', ds'), u);
    }
  }

  /** What is left over is part of what was there. */
  lemma {:induction false} RestWithin(cs: seq<Entry>, ds: seq<Entry>, u: UserId)
    requires Positive(cs) && Positive(ds)
    ensures var rest := Rest(cs, ds);
            && Positive(rest.0) && Positive(rest.1)
            && 0 <= Owed(rest.0, u) <= Owed(cs, u)
            && 0 <= Owed(rest.1, u) <= Owed(ds, u)
    decreases |cs| + |ds|
  {
    OwedNonNegative(cs, u);
    OwedNonNegative(ds, u);
    hide Owed;
    if cs != [] && ds != [] {
      var amount := Min(cs[0].amount, ds[0].amount);
      ReducePositive(cs, amount);
      ReducePositive(ds, amount);
      hide Reduce;
      RestWithin(Reduce(cs, amount), Reduce(ds, amount), u);
      ReduceOwed(cs, amount, u);
      ReduceOwed(ds, amount, u);
    }
  }

  lemma OwedNonNegative(es: seq<Entry>, u: UserId)
    requires Positive(es)
    ensures Owed(es, u) >= 0
  {
    TotalNonNegative(EntryItems(es), u);
  }

  lemma ReducePositive(es: seq<Entry>, amount: int)
    requires es != [] && Positive(es) && amount <= es[0].amount
    ensures Positive(Reduce(es, amount))
  {
  }

  lemma {:induction false} PositiveSum(es: seq<Entry>)
    requires Positive(es)
    ensures SumOf(es) >= 0 && (SumOf(es) == 0 <==> es == [])
  {
    if es != [] {
      assert es == [es[0]] + es[1..];
      OwedCons(es[0], es[1..], 0);
      PositiveSum(es[1..]);
    }
  }

  /** Sorting the entries changes nobody's share of them. */
  lemma {:induction false} SortKeepsOwed(es: seq<Entry>, u: UserId)
    ensures Owed(SortBy(es, Before()), u) == Owed(es, u)
    ensures SumOf(SortBy(es, Before())) == SumOf(es)
  {
    var s := SortBy(es, Before());
    MapMultiset(EntryItem, s, es);
    TotalMultiset(EntryItems(s), EntryItems(es), u);
    MapMultiset((i: Item<UserId>) => i.value, EntryItems(s), EntryItems(es));
    SumMultiset(Amounts(EntryItems(s)), Amounts(EntryItems(es)));
  }

  lemma OwedSnoc(es: seq<Entry>, e: Entry, u: UserId)
    ensures Owed(es + [e], u) == Owed(es, u) + if e.id == u then e.amount else 0
    ensures SumOf(es + [e]) == SumOf(es) + e.amount
  {
    assert EntryItems(es + [e]) == EntryItems(es) + [EntryItem(e)];
    TotalSnoc(EntryItems(es), EntryItem(e), u);
    assert Amounts(EntryItems(es) + [EntryItem(e)]) == Amounts(EntryItems(es)) + [e.amount];
    SumSnoc(Amounts(EntryItems(es)), e.amount);
  }

  lemma SidesStep(balances: seq<Balance>, u: UserId)
    requires balances != []
    ensures var front, b := balances[..|balances| - 1], balances[|balances| - 1];
            && Owed(Creditors(balances), u) == Owed(Creditors(front), u) + (if b.user == u && b.amount > 0 then b.amount else 0)
            && Owed(Debtors(balances), u) == Owed(Debtors(front), u) + (if b.user == u && b.amount < 0 then -b.amount else 0)
            && SumOf(Creditors(balances)) - SumOf(Debtors(balances)) == SumOf(Creditors(front)) - SumOf(Debtors(front)) + b.amount
  {
    hide Owed;
    hide SumOf;
    var front, b := balances[..|balances| - 1], balances[|balances| - 1];
    OwedSnoc(Creditors(front), Entry(b.user, b.amount), u);
    OwedSnoc(Debtors(front), Entry(b.user, -b.amount), u);
    assert Creditors(front) + [] == Creditors(front) && Debtors(front) + [] == Debtors(front);
  }

  lemma BalanceStep(balances: seq<Balance>, u: UserId)
    requires balances != []
    ensures var front, b := balances[..|balances| - 1], balances[|balances| - 1];
            && BalanceOf(balances, u) == BalanceOf(front, u) + (if b.user == u then b.amount else 0)
            && Sum(Amounts(BalanceItems(balances))) == Sum(Amounts(BalanceItems(front))) + b.amount
  {
    var n := |balances| - 1;
    assert BalanceItems(balances)[..n] == BalanceItems(balances[..n]);
    assert Amounts(BalanceItems(balances))[..n] == Amounts(BalanceItems(balances[..n]));
  }

  /** Creditors minus debtors is the balance. */
  lemma {:induction false} SidesMakeBalance(balances: seq<Balance>, u: UserId)
    ensures BalanceOf(balances, u) == Owed(Creditors(balances), u) - Owed(Debtors(balances), u)
    ensures Sum(Amounts(BalanceItems(balances))) == SumOf(Creditors(balances)) - SumOf(Debtors(balances))
  {
    if balances == [] {
      EmptyOwed(u);
    } else {
      hide *;
      SidesMakeBalance(balances[..|balances| - 1], u);
      SidesStep(balances, u);
      BalanceStep(balances, u);
    }
  }

  /** The residuals are the leftovers of one side only. */
  lemma ResidualIsRest(balances: seq<Balance>, u: UserId) returns (rc: seq<Entry>, rd: seq<Entry>)
    ensures Positive(rc) && Positive(rd) && (rc == [] || rd == [])
    ensures Residual(balances, Simplified(balances), u) == Owed(rc, u) - Owed(rd, u)
    ensures Sum(Amounts(BalanceItems(balances))) == SumOf(rc) - SumOf(rd)
    ensures 0 <= Owed(rc, u) <= Owed(Creditors(balances), u)
    ensures 0 <= Owed(rd, u) <= Owed(Debtors(balances), u)
  {
    hide Owed;
    hide SumOf;
    var cs, ds := SortBy(Creditors(balances), Before()), SortBy(Debtors(balances), Before());
    SortedStaysPositive(Creditors(balances));
    SortedStaysPositive(Debtors(balances));
    SortKeepsOwed(Creditors(balances), u);
    SortKeepsOwed(Debtors(balances), u);
    SidesMakeBalance(balances, u);
    FlowBalance(cs, ds, u);
    RestWithin(cs, ds, u);
    rc, rd := Rest(cs, ds).0, Rest(cs, ds).1;
  }

  lemma EmptyOwed(u: UserId)
    ensures Owed([], u) == 0 && SumOf([]) == 0
  {
    assert EntryItems([]) == [] && Amounts(EntryItems([])) == [];
  }

  /** Recording every edge as a settlement clears a zero-sum group; otherwise every residual
      has the sign of the imbalance. */
  lemma SimplifySettles(balances: seq<Balance>, u: UserId)
    ensures var total := Sum(Amounts(BalanceItems(balances)));
            var residual := Residual(balances, Simplified(balances), u);
            && (total == 0 ==> residual == 0)
            && (total >= 0 ==> residual >= 0)
            && (total <= 0 ==> residual <= 0)
  {
    hide Owed;
    hide SumOf;
    hide Residual;
    var rc, rd := ResidualIsRest(balances, u);
    EmptyOwed(u);
    PositiveSum(rc);
    PositiveSum(rd);
  }

  ghost predicate DistinctUsers(balances: seq<Balance>) {
    forall i, j | 0 <= i < j < |balances| :: balances[i].user != balances[j].user
  }

  lemma {:induction false} AbsentSides(balances: seq<Balance>, u: UserId)
    requires forall i | 0 <= i < |balances| :: balances[i].user != u
    ensures Owed(Creditors(balances), u) == 0 == Owed(Debtors(balances), u)
  {
    if balances == [] {
      EmptyOwed(u);
    } else {
      hide *;
      AbsentSides(balances[..|balances| - 1], u);
      SidesStep(balances, u);
    }
  }

  lemma {:induction false} OneSided(balances: seq<Balance>, u: UserId)
    requires DistinctUsers(balances)
    ensures Owed(Creditors(balances), u) >= 0 && Owed(Debtors(balances), u) >= 0
    ensures Owed(Creditors(balances), u) == 0 || Owed(Debtors(balances), u) == 0
  {
    if balances == [] {
      EmptyOwed(u);
    } else {
      var front, b := balances[..|balances| - 1], balances[|balances| - 1];
      hide Owed;
      hide Creditors;
      hide Debtors;
      hide SumOf;
      if b.user == u {
        AbsentSides(front, u);
      } else {
        OneSided(front, u);
      }
      SidesStep(balances, u);
    }
  }

  /** Nobody overpays or is overpaid: recording the edges moves each balance toward zero and
      never past it. */
  lemma NobodyOverpays(balances: seq<Balance>, u: UserId)
    requires DistinctUsers(balances)
    ensures var before, after := BalanceOf(balances, u), Residual(balances, Simplified(balances), u);
            if before >= 0 then 0 <= after <= before else before <= after <= 0
  {
    hide Owed;
    hide SumOf;
    hide Residual;
    hide BalanceOf;
    var rc, rd := ResidualIsRest(balances, u);
    SidesMakeBalance(balances, u);
    OneSided(balances, u);
  }

  function Users(balances: seq<Balance>): (r: seq<UserId>)
    ensures |r| == |balances| && forall i | 0 <= i < |r| :: r[i] == balances[i].user
  {
    Map((b: Balance) => b.user, balances)
  }

  function Residuals(balances: seq<Balance>, debts: seq<Debt>): (r: seq<int>)
    ensures |r| == |balances|
  {
    seq(|balances|, i requires 0 <= i < |balances| => Residual(balances, debts, balances[i].user))
  }

  lemma {:induction false} TransfersSumToZero(debts: seq<Debt>)
    ensures Sum(Amounts(TransferItems(debts))) == 0
  {
    if debts != [] {
      TransfersSumToZero(debts[1..]);
      hide Sum;
      var d, rest := debts[0], TransferItems(debts[1..]);
      var a, b := Item(d.from, d.amount), Item(d.to, -d.amount);
      assert Amounts([a, b] + rest) == [d.amount] + ([-d.amount] + Amounts(rest));
      SumCons(d.amount, [-d.amount] + Amounts(rest));
      SumCons(-d.amount, Amounts(rest));
    }
  }

  ghost predicate Among(debts: seq<Debt>, users: seq<UserId>) {
    forall k | 0 <= k < |debts| :: debts[k].from in users && debts[k].to in users
  }

  lemma {:induction false} TransferCover(debts: seq<Debt>, users: seq<UserId>)
    requires Among(debts, users)
    ensures Covers(users, TransferItems(debts))
  {
    if debts != [] {
      forall k | 0 <= k < |debts[1..]|
        ensures debts[1..][k].from in users && debts[1..][k].to in users
      {
        assert debts[1..][k] == debts[k + 1];
      }
      TransferCover(debts[1..], users);
    }
  }

  /** Transfers among the members conserve: the residuals total the original imbalance. */
  lemma ResidualsTotal(balances: seq<Balance>, debts: seq<Debt>)
    requires DistinctUsers(balances) && Among(debts, Users(balances))
    ensures Sum(Residuals(balances, debts)) == Sum(Amounts(BalanceItems(balances)))
  {
    var users, items, moved := Users(balances), BalanceItems(balances), TransferItems(debts);
    TransferCover(debts, users);
    forall i | 0 <= i < |items|
      ensures items[i].key in users
    {
      assert users[i] == items[i].key;
    }
    assert Covers(users, items + moved);
    GroupsSum(items + moved, users);
    assert Amounts(items + moved) == Amounts(items) + Amounts(moved);
    SumAppend(Amounts(items), Amounts(moved));
    TransfersSumToZero(debts);
    forall i | 0 <= i < |users|
      ensures Totals(items + moved, users)[i] == Residuals(balances, debts)[i]
    {
      TotalAppend(items, moved, users[i]);
    }
    assert Totals(items + moved, users) == Residuals(balances, debts);
  }

  lemma {:induction false} SideIds(balances: seq<Balance>, u: UserId)
    ensures u in Ids(Creditors(balances)) || u in Ids(Debtors(balances)) ==> u in Users(balances)
  {
    if balances != [] {
      var n := |balances| - 1;
      SideIds(balances[..n], u);
      assert Users(balances) == Users(balances[..n]) + [balances[n].user];
    }
  }

  lemma {:induction false} SortKeepsIds(es: seq<Entry>)
    ensures Ids(SortBy(es, Before())) == Ids(es)
  {
    MembersAgree(es, SortBy(es, Before()));
  }

  lemma {:induction false} EdgesAmong(debts: seq<Debt>, balances: seq<Balance>, bound: int)
    requires forall k | 0 <= k < |debts| :: EdgeBetween(debts[k], Ids(Debtors(balances)), Ids(Creditors(balances)), bound)
    ensures Among(debts, Users(balances))
  {
    forall k | 0 <= k < |debts|
      ensures debts[k].from in Users(balances) && debts[k].to in Users(balances)
    {
      SideIds(balances, debts[k].from);
      SideIds(balances, debts[k].to);
    }
  }

  /** Simplify's edges: at most c + d - 1 of them, each from a debtor to a creditor of the
      group, of a positive amount no larger than the largest credit. */
  lemma {:induction false} SimplifyEdges(balances: seq<Balance>, bound: int)
    requires forall i | 0 <= i < |balances| :: balances[i].amount <= bound
    ensures var debts := Simplified(balances);
            && |debts| <= Max(0, |Creditors(balances)| + |Debtors(balances)| - 1)
            && (forall k | 0 <= k < |debts| :: EdgeBetween(debts[k], Ids(Debtors(balances)), Ids(Creditors(balances)), bound))
            && Among(debts, Users(balances))
  {
    hide SortBy;
    hide Settle;
    hide Ids;
    hide Creditors;
    hide Debtors;
    hide Before;
    var cs, ds := SortBy(Creditors(balances), Before()), SortBy(Debtors(balances), Before());
    SortedStaysPositive(Creditors(balances));
    SortedStaysPositive(Debtors(balances));
    SortKeepsIds(Creditors(balances));
    SortKeepsIds(Debtors(balances));
    CreditorBound(balances, bound);
    MembersAgree(cs, Creditors(balances));
    forall i | 0 <= i < |cs|
      ensures cs[i].amount <= bound
    {
      assert cs[i] in Creditors(balances);
    }
    EdgeCount(cs, ds);
    EdgeShape(cs, ds, bound);
    EdgesAmong(Simplified(balances), balances, bound);
  }

  lemma {:induction false} CreditorBound(balances: seq<Balance>, bound: int)
    requires forall i | 0 <= i < |balances| :: balances[i].amount <= bound
    ensures forall e | e in Creditors(balances) :: e.amount <= bound
  {
    if balances != [] {
      CreditorBound(balances[..|balances| - 1], bound);
    }
  }

  function Moved(debts: seq<Debt>): int {
    if debts == [] then 0 else debts[0].amount + Moved(debts[1..])
  }

  lemma {:induction false} MovedTotal(cs: seq<Entry>, ds: seq<Entry>)
    ensures Moved(Settle(cs, ds)) == SumOf(cs) - SumOf(Rest(cs, ds).0) == SumOf(ds) - SumOf(Rest(cs, ds).1)
    decreases |cs| + |ds|
  {
    if cs != [] && ds != [] {
      hide SumOf;
      var amount := Min(cs[0].amount, ds[0].amount);
      MovedTotal(Reduce(cs, amount), Reduce(ds, amount));
      ReduceOwed(cs, amount, 0);
      ReduceOwed(ds, amount, 0);
    }
  }

  /** Simplify moves the smaller of total credit and total debt; that is all the credit, as
      its documentation says, exactly when the balances do not sum to more than zero. */
  lemma {:induction false} MoneyMoved(balances: seq<Balance>)
    ensures var credit, debt := SumOf(Creditors(balances)), SumOf(Debtors(balances));
            && Moved(Simplified(balances)) == Min(credit, debt)
            && (Moved(Simplified(balances)) == credit <==> Sum(Amounts(BalanceItems(balances))) <= 0)
  {
    hide Owed;
    hide SumOf;
    var cs, ds := SortBy(Creditors(balances), Before()), SortBy(Debtors(balances), Before());
    SortedStaysPositive(Creditors(balances));
    SortedStaysPositive(Debtors(balances));
    SortKeepsOwed(Creditors(balances), 0);
    SortKeepsOwed(Debtors(balances), 0);
    SidesMakeBalance(balances, 0);
    MovedTotal(cs, ds);
    RestWithin(cs, ds, 0);
    PositiveSum(Rest(cs, ds).0);
    PositiveSum(Rest(cs, ds).1);
  }

  // ----- no transfer list does better than half

  function Endpoints(debts: seq<Debt>): (r: set<UserId>)
    ensures |r| <= 2 * |debts|
  {
    if debts == [] then {}
    else
      var rest := Endpoints(debts[1..]);
      CardUnion({debts[0].from, debts[0].to}, rest);
      {debts[0].from, debts[0].to} + rest
  }

  lemma CardUnion(a: set<UserId>, b: set<UserId>)
    requires |a| <= 2
    ensures |a + b| <= 2 + |b|
  {
    assert a + b == (a - b) + b;
    CardSubset(a - b, a);
  }

  lemma {:induction false} CardSubset(a: set<UserId>, b: set<UserId>)
    requires a <= b
    ensures |a| <= |b|
  {
    if a != {} {
      var x :| x in a;
      CardSubset(a - {x}, b - {x});
    }
  }

  lemma {:induction false} UntouchedUser(debts: seq<Debt>, u: UserId)
    requires u !in Endpoints(debts)
    ensures Total(TransferItems(debts), u) == 0
  {
    if debts != [] {
      UntouchedUser(debts[1..], u);
      assert debts == [debts[0]] + debts[1..];
      TransferStep(debts[0], debts[1..], u);
    }
  }

  function Unsettled(balances: seq<Balance>): set<UserId> {
    set b | b in balances && b.amount != 0 :: b.user
  }

  lemma {:induction false} DistinctBalance(balances: seq<Balance>, i: nat)
    requires DistinctUsers(balances) && i < |balances|
    ensures BalanceOf(balances, balances[i].user) == balances[i].amount
  {
    var n := |balances| - 1;
    var u := balances[i].user;
    BalanceStep(balances, u);
    if i == n {
      TotalAbsent(BalanceItems(balances[..n]), u);
    } else {
      DistinctBalance(balances[..n], i);
    }
  }

  lemma {:induction false} SideSign(balances: seq<Balance>, u: UserId)
    ensures u in Ids(Creditors(balances)) ==> exists i | 0 <= i < |balances| :: balances[i].user == u && balances[i].amount > 0
    ensures u in Ids(Debtors(balances)) ==> exists i | 0 <= i < |balances| :: balances[i].user == u && balances[i].amount < 0
  {
    if balances != [] {
      var front := balances[..|balances| - 1];
      SideSign(front, u);
      assert forall i | 0 <= i < |front| :: front[i] == balances[i];
    }
  }

  /** Every edge runs from someone below zero to someone above. */
  lemma EdgeSigns(balances: seq<Balance>, k: nat)
    requires DistinctUsers(balances) && k < |Simplified(balances)|
    ensures var d := Simplified(balances)[k];
            d.amount > 0 && BalanceOf(balances, d.from) < 0 < BalanceOf(balances, d.to)
  {
    hide Simplified;
    hide BalanceOf;
    var d := Simplified(balances)[k];
    var bound := LargestAmount(balances);
    SimplifyEdges(balances, bound);
    assert EdgeBetween(d, Ids(Debtors(balances)), Ids(Creditors(balances)), bound);
    SideSign(balances, d.from);
    SideSign(balances, d.to);
    hide Ids;
    var i :| 0 <= i < |balances| && balances[i].user == d.from && balances[i].amount < 0;
    var j :| 0 <= j < |balances| && balances[j].user == d.to && balances[j].amount > 0;
    DistinctBalance(balances, i);
    DistinctBalance(balances, j);
  }

  lemma UnsettledSnoc(front: seq<Balance>, b: Balance)
    requires DistinctUsers(front + [b])
    ensures |Unsettled(front + [b])| == |Unsettled(front)| + if b.amount != 0 then 1 else 0
  {
    forall x | x in front
      ensures x.user != b.user
    {
      var i :| 0 <= i < |front| && front[i] == x;
      assert (front + [b])[i] == x && (front + [b])[|front|] == b;
    }
    assert b.user !in Unsettled(front);
    if b.amount != 0 {
      assert b in front + [b];
      assert Unsettled(front + [b]) == Unsettled(front) + {b.user};
    } else {
      assert Unsettled(front + [b]) == Unsettled(front);
    }
  }

  lemma {:induction false} UnsettledCount(balances: seq<Balance>)
    requires DistinctUsers(balances)
    ensures |Unsettled(balances)| == |Creditors(balances)| + |Debtors(balances)|
  {
    if balances == [] {
      assert Unsettled(balances) == {};
    } else {
      hide Unsettled;
      var n := |balances| - 1;
      UnsettledCount(balances[..n]);
      assert balances == balances[..n] + [balances[n]];
      UnsettledSnoc(balances[..n], balances[n]);
    }
  }

  /** Any transfer list that zeroes the balances has more than half as many transfers as
      Simplify returns. */
  lemma TwoApproximation(balances: seq<Balance>, other: seq<Debt>)
    requires DistinctUsers(balances)
    requires exists i | 0 <= i < |balances| :: balances[i].amount != 0
    requires forall u :: Residual(balances, other, u) == 0
    ensures |Simplified(balances)| < 2 * |other|
  {
    forall u | u in Unsettled(balances)
      ensures u in Endpoints(other)
    {
      var b :| b in balances && b.amount != 0 && b.user == u;
      var i :| 0 <= i < |balances| && balances[i] == b;
      DistinctBalance(balances, i);
      assert Residual(balances, other, u) == 0;
      if u !in Endpoints(other) {
        UntouchedUser(other, u);
      }
    }
    CardSubset(Unsettled(balances), Endpoints(other));
    UnsettledCount(balances);
    var i :| 0 <= i < |balances| && balances[i].amount != 0;
    assert balances[i].user in Unsettled(balances);
    var bound := LargestAmount(balances);
    SimplifyEdges(balances, bound);
  }

  lemma {:induction false} LargestAmount(balances: seq<Balance>) returns (bound: int)
    ensures forall i | 0 <= i < |balances| :: balances[i].amount <= bound
  {
    if balances == [] {
      bound := 0;
    } else {
      var b := LargestAmount(balances[..|balances| - 1]);
      bound := Max(b, balances[|balances| - 1].amount);
    }
  }

  // ----- the order of the input does not matter

  lemma {:induction false} SidesAppend(s: seq<Balance>, t: seq<Balance>)
    ensures Creditors(s + t) == Creditors(s) + Creditors(t)
    ensures Debtors(s + t) == Debtors(s) + Debtors(t)
  {
    if t == [] {
      assert s + t == s;
    } else {
      var n := |t| - 1;
      assert (s + t)[..|s + t| - 1] == s + t[..n];
      SidesAppend(s, t[..n]);
    }
  }

  lemma {:induction false} SidesWithout(s: seq<Balance>, j: nat)
    requires j < |s|
    ensures multiset(Creditors(s)) == multiset(Creditors(s[..j] + s[j + 1..])) + multiset(Creditors([s[j]]))
    ensures multiset(Debtors(s)) == multiset(Debtors(s[..j] + s[j + 1..])) + multiset(Debtors([s[j]]))
  {
    hide Creditors;
    hide Debtors;
    SplitAt(s, j);
    SidesAppend(s[..j] + [s[j]], s[j + 1..]);
    SidesAppend(s[..j], [s[j]]);
    SidesAppend(s[..j], s[j + 1..]);
  }

  lemma {:induction false} SidesMultiset(s: seq<Balance>, t: seq<Balance>)
    requires multiset(s) == multiset(t)
    ensures multiset(Creditors(s)) == multiset(Creditors(t))
    ensures multiset(Debtors(s)) == multiset(Debtors(t))
    decreases |s|
  {
    MembersAgree(s, t);
    if s != [] {
      hide Creditors;
      hide Debtors;
      assert s[0] in t;
      var j :| 0 <= j < |t| && t[j] == s[0];
      SplitAt(s, 0);
      SplitAt(t, j);
      SidesMultiset(s[..0] + s[1..], t[..j] + t[j + 1..]);
      SidesWithout(s, 0);
      SidesWithout(t, j);
    }
  }

  /** Simplify's output does not depend on the order of its input, repeated users included:
      the comparator never ties. */
  lemma SimplifyIgnoresOrder(s: seq<Balance>, t: seq<Balance>)
    requires multiset(s) == multiset(t)
    ensures Simplified(s) == Simplified(t)
  {
    SidesMultiset(s, t);
    BeforeOrders(Creditors(s));
    BeforeOrders(Debtors(s));
    SortByIgnoresOrder(Creditors(s), Creditors(t), Before());
    SortByIgnoresOrder(Debtors(s), Debtors(t), Before());
  }

  /** `listing` names every entry of the map once, in whatever order the map is ranged over. */
  ghost predicate Listing(listing: seq<Balance>, m: map<UserId, int>) {
    && DistinctUsers(listing)
    && (forall i | 0 <= i < |listing| :: listing[i].user in m && m[listing[i].user] == listing[i].amount)
    && (forall u | u in m :: Balance(u, m[u]) in listing)
  }

  /** GetDebts ranges over a Go map, and still answers the same. */
  lemma DebtsEndpointDeterministic(m: map<UserId, int>, s: seq<Balance>, t: seq<Balance>)
    requires Listing(s, m) && Listing(t, m)
    ensures multiset(s) == multiset(t) && Simplified(s) == Simplified(t)
  {
    forall b: Balance
      ensures multiset(s)[b] == multiset(t)[b]
    {
      OccursOnce(s, b);
      OccursOnce(t, b);
      assert b in s <==> b in multiset(s);
      assert b in t <==> b in multiset(t);
      assert b in s <==> b.user in m && m[b.user] == b.amount;
      assert b in t <==> b.user in m && m[b.user] == b.amount;
    }
    assert multiset(s) == multiset(t);
    SimplifyIgnoresOrder(s, t);
  }
}
