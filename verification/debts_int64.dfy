/** `Simplify` on int64 balances: one that is the smallest int64 has no negation, and its edge moves
    a negative amount. */
module DebtsInt64 {
  import opened Entities
  import opened Numbers
  import opened Sorting
  import opened Filtering
  import opened Grouping
  import opened Debts
  import opened DebtsLaws

  const SMALLEST: int := -TWO_63

  function Negatable(): Balance -> bool { (b: Balance) => b.amount != SMALLEST }

  /** The balances that are not the smallest int64. */
  function Others(balances: seq<Balance>): seq<Balance> { Filter(Negatable(), balances) }

  /** Debtor entries of those that are. */
  function Stuck(balances: seq<Balance>): (r: seq<Entry>)
    ensures forall i | 0 <= i < |r| :: r[i].amount == SMALLEST
  {
    if balances == [] then []
    else
      var b := balances[|balances| - 1];
      Stuck(balances[..|balances| - 1]) + if b.amount == SMALLEST then [Entry(b.user, SMALLEST)] else []
  }

  ghost predicate InRange(balances: seq<Balance>) {
    forall i | 0 <= i < |balances| :: InInt64(balances[i].amount)
  }

  ghost predicate Below(es: seq<Entry>) {
    forall i | 0 <= i < |es| :: 0 < es[i].amount < TWO_63
  }

  // ----- the sides

  lemma WrapNegated(x: int)
    requires InInt64(x) && x < 0
    ensures Wrap(-x) == if x == SMALLEST then SMALLEST else -x
  {
  }

  ghost predicate Split(balances: seq<Balance>) {
    && Creditors(balances) == Creditors(Others(balances)) && Below(Creditors(balances))
    && Below(Debtors(Others(balances)))
    && multiset(Owing(balances)) == multiset(Debtors(Others(balances))) + multiset(Stuck(balances))
  }

  lemma BelowSnoc(es: seq<Entry>, e: Entry)
    requires Below(es) && 0 < e.amount < TWO_63
    ensures Below(es + [e])
  {
  }

  lemma SplitSnoc(front: seq<Balance>, b: Balance)
    requires Split(front) && InInt64(b.amount)
    ensures Split(front + [b])
  {
    FilterSnoc(Negatable(), front, b);
    SideSnoc(front, b);
    SideSnoc(Others(front), b);
    OwingSnoc(front, b);
    hide Filter;
    hide Creditors;
    hide Debtors;
    hide Owing;
    hide Stuck;
    hide Wrap;
    hide Below;
    if b.amount < 0 { WrapNegated(b.amount); }
    assert Debtors(Others(front)) + [] == Debtors(Others(front)) && Owing(front) + [] == Owing(front) && Stuck(front) + [] == Stuck(front);
    assert Creditors(front) + [] == Creditors(front);
    if b.amount > 0 {
      BelowSnoc(Creditors(front), Entry(b.user, b.amount));
    } else if SMALLEST < b.amount < 0 {
      BelowSnoc(Debtors(Others(front)), Entry(b.user, -b.amount));
      MultisetSnoc(Owing(front), Debtors(Others(front)), Stuck(front), Entry(b.user, -b.amount));
    } else if b.amount == SMALLEST {
      MultisetSnoc(Owing(front), Debtors(Others(front)), Stuck(front), Entry(b.user, SMALLEST));
    }
  }

  lemma {:induction false} SidesSplit(balances: seq<Balance>)
    requires InRange(balances)
    ensures Split(balances)
  {
    if balances != [] {
      var front, b := balances[..|balances| - 1], balances[|balances| - 1];
      assert balances == front + [b] && InInt64(b.amount) && InRange(front);
      hide Split;
      SidesSplit(front);
      SplitSnoc(front, b);
    }
  }

  lemma {:induction false} OwingSnoc(front: seq<Balance>, b: Balance)
    ensures Owing(front + [b]) == Owing(front) + if b.amount < 0 then [Entry(b.user, Wrap(-b.amount))] else []
    ensures Stuck(front + [b]) == Stuck(front) + if b.amount == SMALLEST then [Entry(b.user, SMALLEST)] else []
  {
    assert (front + [b])[..|front|] == front;
  }

  lemma {:induction false} SideSnoc(front: seq<Balance>, b: Balance)
    ensures Creditors(front + [b]) == Creditors(front) + if b.amount > 0 then [Entry(b.user, b.amount)] else []
    ensures Debtors(front + [b]) == Debtors(front) + if b.amount < 0 then [Entry(b.user, -b.amount)] else []
  {
    assert (front + [b])[..|front|] == front;
  }

  /** The entries without a negation come last. */
  lemma {:induction false} OwingSorted(balances: seq<Balance>)
    requires InRange(balances)
    ensures SortBy(Owing(balances), Before()) == SortBy(Debtors(Others(balances)), Before()) + SortBy(Stuck(balances), Before())
  {
    var x, y := SortBy(Debtors(Others(balances)), Before()), SortBy(Stuck(balances), Before());
    SidesSplit(balances);
    MembersAgree(x, Debtors(Others(balances)));
    MembersAgree(y, Stuck(balances));
    BeforeOrders(Debtors(Others(balances)));
    BeforeOrders(Stuck(balances));
    SortBySorted(Debtors(Others(balances)), Before());
    SortBySorted(Stuck(balances), Before());
    BeforeOrders(Owing(balances));
    SortBySorted(Owing(balances), Before());
    hide SortBy;
    forall i | 0 <= i < |x|
      ensures x[i].amount > 0
    {
      assert x[i] in Debtors(Others(balances));
    }
    forall j | 0 <= j < |y|
      ensures y[j].amount == SMALLEST
    {
      assert y[j] in Stuck(balances);
    }
    Joined(x, y);
    BeforeOrders(x + y);
    SortedUnique(x + y, SortBy(Owing(balances), Before()), Before());
  }

  lemma Joined(x: seq<Entry>, y: seq<Entry>)
    requires Sorted(x, Before()) && Sorted(y, Before())
    requires (forall i | 0 <= i < |x| :: x[i].amount > 0) && forall j | 0 <= j < |y| :: y[j].amount == SMALLEST
    ensures Sorted(x + y, Before())
  {
  }

  // ----- the walk

  /** Against entries without a negation every edge moves the smallest int64. */
  lemma {:induction false} StuckEdges(cs: seq<Entry>, dw: seq<Entry>)
    requires AllInt64(cs) && forall j | 0 <= j < |dw| :: dw[j].amount == SMALLEST
    ensures forall k | 0 <= k < |Walked(cs, dw)| :: Walked(cs, dw)[k].amount == SMALLEST
    ensures cs != [] && dw != [] ==> Walked(cs, dw) != []
    decreases |cs| + |dw|
  {
    if cs != [] && dw != [] {
      var amount := Min(cs[0].amount, dw[0].amount);
      assert amount == SMALLEST && Remaining(dw, amount) == dw[1..];
      RemainingInt64(cs, amount);
      hide Remaining;
      StuckEdges(Remaining(cs, amount), dw[1..]);
    }
  }

  lemma RemainingInt64(es: seq<Entry>, amount: int)
    requires es != [] && AllInt64(es)
    ensures AllInt64(Remaining(es, amount))
  {
  }

  lemma WrapIn(x: int)
    requires InInt64(x)
    ensures Wrap(x) == x
  {
  }

  lemma RemainingIsReduce(es: seq<Entry>, more: seq<Entry>, amount: int)
    requires es != [] && Below(es) && 0 < amount <= es[0].amount
    ensures Remaining(es + more, amount) == Reduce(es, amount) + more && Below(Reduce(es, amount))
  {
    WrapIn(es[0].amount - amount);
    hide Wrap;
    assert (es + more)[0] == es[0] && (es + more)[1..] == es[1..] + more;
  }

  lemma {:induction false} WalkStep(cs: seq<Entry>, dn: seq<Entry>, dw: seq<Entry>, amount: int)
    requires cs != [] && dn != [] && Below(cs) && Below(dn) && amount == Min(cs[0].amount, dn[0].amount)
    ensures var cs', dn', edge := Reduce(cs, amount), Reduce(dn, amount), [Debt(dn[0].id, cs[0].id, amount)];
            && Below(cs') && Below(dn') && |cs'| + |dn'| < |cs| + |dn|
            && Settle(cs, dn) == edge + Settle(cs', dn') && Rest(cs, dn) == Rest(cs', dn')
            && Walked(cs, dn + dw) == edge + Walked(cs', dn' + dw)
  {
    RemainingIsReduce(cs, [], amount);
    RemainingIsReduce(dn, dw, amount);
    assert cs + [] == cs && Reduce(cs, amount) + [] == Reduce(cs, amount);
    assert (dn + dw)[0] == dn[0];
    hide Remaining;
    hide Wrap;
  }

  /** The ordinary walk first, then edges of the smallest int64: some exactly when a creditor and
      an entry without a negation are left. */
  lemma {:induction false} WalkSplits(cs: seq<Entry>, dn: seq<Entry>, dw: seq<Entry>) returns (rest: seq<Debt>)
    requires Below(cs) && Below(dn) && forall j | 0 <= j < |dw| :: dw[j].amount == SMALLEST
    ensures Walked(cs, dn + dw) == Settle(cs, dn) + rest
    ensures forall k | 0 <= k < |rest| :: rest[k].amount == SMALLEST
    ensures rest == [] <==> dw == [] || Rest(cs, dn).0 == []
    decreases |cs| + |dn|
  {
    hide *;
    if cs == [] || dn == [] {
      rest := WalkEnds(cs, dn, dw);
    } else {
      var amount := Min(cs[0].amount, dn[0].amount);
      WalkStep(cs, dn, dw, amount);
      rest := WalkSplits(Reduce(cs, amount), Reduce(dn, amount), dw);
    }
  }

  lemma WalkEnds(cs: seq<Entry>, dn: seq<Entry>, dw: seq<Entry>) returns (rest: seq<Debt>)
    requires (cs == [] || dn == []) && Below(cs) && forall j | 0 <= j < |dw| :: dw[j].amount == SMALLEST
    ensures Walked(cs, dn + dw) == Settle(cs, dn) + rest
    ensures forall k | 0 <= k < |rest| :: rest[k].amount == SMALLEST
    ensures rest == [] <==> dw == [] || Rest(cs, dn).0 == []
  {
    if cs == [] {
      rest := [];
    } else {
      assert dn + dw == dw && Settle(cs, dn) == [] && Rest(cs, dn).0 == cs;
      rest := Walked(cs, dw);
      StuckEdges(cs, dw);
      assert dw == [] ==> Walked(cs, dw) == [];
      hide Walked;
    }
  }

  lemma {:induction false} SortedStaysBelow(es: seq<Entry>)
    requires Below(es)
    ensures Below(SortBy(es, Before()))
  {
    var s := SortBy(es, Before());
    MembersAgree(es, s);
    forall i | 0 <= i < |s|
      ensures 0 < s[i].amount < TWO_63
    {
      assert s[i] in es;
    }
  }

  /** What `Simplify` returns: the settlement of the other balances, then edges of the smallest
      int64; none exactly when no balance is that number or no credit is left for it. */
  lemma SuggestedSplits(balances: seq<Balance>) returns (rest: seq<Debt>)
    requires InRange(balances)
    ensures Suggested(balances) == Simplified(Others(balances)) + rest
    ensures forall k | 0 <= k < |rest| :: rest[k].amount == SMALLEST
    ensures rest == [] <==> Stuck(balances) == [] || SumOf(Creditors(balances)) <= SumOf(Debtors(Others(balances)))
  {
    SidesSplit(balances);
    OwingSorted(balances);
    SortedStaysBelow(Creditors(balances));
    SortedStaysBelow(Debtors(Others(balances)));
    var cs, dn, dw := SortBy(Creditors(balances), Before()), SortBy(Debtors(Others(balances)), Before()), SortBy(Stuck(balances), Before());
    MembersAgree(dw, Stuck(balances));
    forall j | 0 <= j < |dw|
      ensures dw[j].amount == SMALLEST
    {
      assert dw[j] in Stuck(balances);
    }
    SortKeepsOwed(Creditors(balances), 0);
    SortKeepsOwed(Debtors(Others(balances)), 0);
    assert Suggested(balances) == Walked(cs, dn + dw) && Simplified(Others(balances)) == Settle(cs, dn);
    assert dw == [] <==> Stuck(balances) == [];
    hide *;
    rest := WalkSplits(cs, dn, dw);
    CreditLeftIff(cs, dn);
  }

  lemma {:induction false} CreditLeftIff(cs: seq<Entry>, dn: seq<Entry>)
    requires Below(cs) && Below(dn)
    ensures Rest(cs, dn).0 == [] <==> SumOf(cs) <= SumOf(dn)
  {
    FlowBalance(cs, dn, 0);
    RestWithin(cs, dn, 0);
    hide SumOf;
    PositiveSum(Rest(cs, dn).0);
    PositiveSum(Rest(cs, dn).1);
  }

  ghost predicate AllNegatable(balances: seq<Balance>) {
    forall i | 0 <= i < |balances| :: balances[i].amount != SMALLEST
  }

  lemma AllNegatableSnoc(front: seq<Balance>, b: Balance)
    ensures AllNegatable(front + [b]) <==> AllNegatable(front) && b.amount != SMALLEST
  {
    var all := front + [b];
    assert all[|front|] == b && forall i | 0 <= i < |front| :: all[i] == front[i];
  }

  lemma {:induction false} NothingStuck(balances: seq<Balance>)
    ensures Stuck(balances) == [] <==> AllNegatable(balances)
    ensures Stuck(balances) == [] ==> Others(balances) == balances
  {
    if balances != [] {
      var front, b := balances[..|balances| - 1], balances[|balances| - 1];
      NothingStuck(front);
      assert balances == front + [b];
      FilterSnoc(Negatable(), front, b);
      OwingSnoc(front, b);
      AllNegatableSnoc(front, b);
      hide Filter;
      hide Stuck;
      hide AllNegatable;
    }
  }

  /** While no balance is the smallest int64, the code returns the settlement of the exact integers. */
  lemma SuggestedIsSimplified(balances: seq<Balance>)
    requires InRange(balances) && AllNegatable(balances)
    ensures Suggested(balances) == Simplified(balances)
  {
    hide Suggested;
    hide Simplified;
    NothingStuck(balances);
    var rest := SuggestedSplits(balances);
  }

  // ----- the other balances

  lemma {:induction false} OthersDistinct(balances: seq<Balance>)
    requires DistinctUsers(balances)
    ensures DistinctUsers(Others(balances))
  {
    if balances != [] {
      var front, b := balances[..|balances| - 1], balances[|balances| - 1];
      OthersDistinct(front);
      assert balances == front + [b];
      FilterSnoc(Negatable(), front, b);
      FilterKept(Negatable(), front);
      hide Filter;
      forall i | 0 <= i < |Others(front)|
        ensures Others(front)[i].user != b.user
      {
        assert Others(front)[i] in front;
        var j :| 0 <= j < |front| && front[j] == Others(front)[i];
        assert balances[j] == front[j];
      }
    }
  }

  lemma BalanceSnoc(front: seq<Balance>, b: Balance, u: UserId)
    ensures BalanceOf(front + [b], u) == BalanceOf(front, u) + (if b.user == u then b.amount else 0)
    ensures Sum(Amounts(BalanceItems(front + [b]))) == Sum(Amounts(BalanceItems(front))) + b.amount
  {
    assert (front + [b])[..|front|] == front;
    BalanceStep(front + [b], u);
  }

  /** A user's other balance is the user's balance, or nothing where that is the smallest int64. */
  lemma {:induction false} OthersBalance(balances: seq<Balance>, u: UserId)
    requires DistinctUsers(balances)
    ensures BalanceOf(Others(balances), u) == if BalanceOf(balances, u) == SMALLEST then 0 else BalanceOf(balances, u)
  {
    if balances != [] {
      var front, b := balances[..|balances| - 1], balances[|balances| - 1];
      OthersBalance(front, u);
      assert balances == front + [b];
      FilterSnoc(Negatable(), front, b);
      if b.user == u {
        TotalAbsent(BalanceItems(front), u);
      }
      hide Filter;
      hide BalanceOf;
      BalanceSnoc(front, b, u);
      BalanceSnoc(Others(front), b, u);
    }
  }

  /** Leaving out the smallest int64 raises the sum. */
  lemma {:induction false} OthersSum(balances: seq<Balance>)
    ensures Sum(Amounts(BalanceItems(balances))) <= Sum(Amounts(BalanceItems(Others(balances))))
    ensures Stuck(balances) != [] ==> Sum(Amounts(BalanceItems(balances))) < Sum(Amounts(BalanceItems(Others(balances))))
  {
    if balances != [] {
      var front, b := balances[..|balances| - 1], balances[|balances| - 1];
      OthersSum(front);
      assert balances == front + [b];
      FilterSnoc(Negatable(), front, b);
      OwingSnoc(front, b);
      hide Filter;
      hide Sum;
      hide Stuck;
      hide Owing;
      BalanceSnoc(front, b, 0);
      BalanceSnoc(Others(front), b, 0);
      hide BalanceItems;
    }
  }

  lemma {:induction false} OthersImbalance(balances: seq<Balance>)
    requires InRange(balances)
    ensures Sum(Amounts(BalanceItems(Others(balances)))) == SumOf(Creditors(balances)) - SumOf(Debtors(Others(balances)))
  {
    SidesSplit(balances);
    SidesMakeBalance(Others(balances), 0);
    hide Below;
    hide SumOf;
    hide Sum;
  }

  /** In a group that sums to zero, an edge of the smallest int64 is returned exactly when some
      balance is that number. */
  lemma ZeroSumSplits(balances: seq<Balance>) returns (rest: seq<Debt>)
    requires InRange(balances) && Sum(Amounts(BalanceItems(balances))) == 0
    ensures Suggested(balances) == Simplified(Others(balances)) + rest
    ensures forall k | 0 <= k < |rest| :: rest[k].amount == SMALLEST
    ensures rest == [] <==> AllNegatable(balances)
  {
    hide *;
    rest := SuggestedSplits(balances);
    NothingStuck(balances);
    OthersSum(balances);
    OthersImbalance(balances);
  }

  lemma {:induction false} MovedAppend(s: seq<Debt>, t: seq<Debt>)
    ensures Moved(s + t) == Moved(s) + Moved(t)
  {
    if s == [] {
      assert s + t == t;
    } else {
      assert s + t == [s[0]] + (s[1..] + t);
      MovedAppend(s[1..], t);
    }
  }

  lemma {:induction false} MovedStuck(rest: seq<Debt>)
    requires forall k | 0 <= k < |rest| :: rest[k].amount == SMALLEST
    ensures Moved(rest) <= 0 && (rest != [] ==> Moved(rest) < 0)
  {
    if rest != [] { MovedStuck(rest[1..]); }
  }

  /** The edges sum to the positive balances if and only if the balances other than the smallest
      int64 do not sum to more than zero. */
  lemma {:induction false} MoneyMovedIff(balances: seq<Balance>)
    requires InRange(balances)
    ensures Moved(Suggested(balances)) == SumOf(Creditors(balances)) <==> Sum(Amounts(BalanceItems(Others(balances)))) <= 0
  {
    SidesSplit(balances);
    assert Creditors(balances) == Creditors(Others(balances));
    hide *;
    var rest := SuggestedSplits(balances);
    OthersImbalance(balances);
    MovedAppend(Simplified(Others(balances)), rest);
    MovedStuck(rest);
    MoneyMoved(Others(balances));
    MinAtMost(SumOf(Creditors(balances)), SumOf(Debtors(Others(balances))));
  }

  lemma MinAtMost(x: int, y: int)
    ensures Min(x, y) <= x && Min(x, y) <= y
  {
  }

  function Negative(): Balance -> bool { (b: Balance) => b.amount < 0 }

  function OwingEntry(): Balance -> Entry { (b: Balance) => Entry(b.user, Wrap(-b.amount)) }

  lemma {:induction false} OwingIs(balances: seq<Balance>)
    ensures Owing(balances) == Map(OwingEntry(), Filter(Negative(), balances))
  {
    if balances != [] {
      var front, b := balances[..|balances| - 1], balances[|balances| - 1];
      OwingIs(front);
      assert balances == front + [b];
      MapFilterSnoc(OwingEntry(), Negative(), front, b);
      OwingSnoc(front, b);
      hide Filter;
      hide Owing;
      hide Wrap;
    }
  }

  /** The order the balance map is ranged over does not matter here either. */
  lemma SuggestedIgnoresOrder(m: map<UserId, int>, s: seq<Balance>, t: seq<Balance>)
    requires Listing(s, m) && Listing(t, m)
    ensures Suggested(s) == Suggested(t)
  {
    DebtsEndpointDeterministic(m, s, t);
    SidesMultiset(s, t);
    OwingIs(s);
    OwingIs(t);
    FilterMultiset(Negative(), s, t);
    MapMultiset(OwingEntry(), Filter(Negative(), s), Filter(Negative(), t));
    BeforeOrders(Creditors(s));
    BeforeOrders(Owing(s));
    SortByIgnoresOrder(Creditors(s), Creditors(t), Before());
    SortByIgnoresOrder(Owing(s), Owing(t), Before());
    hide Walked;
  }

  const THREE: seq<Balance> := [Balance(1, 0x4000_0000_0000_0000), Balance(2, 0x4000_0000_0000_0000), Balance(3, SMALLEST)]

  lemma ThreeSum()
    ensures Sum(Amounts(BalanceItems(THREE))) == 0
  {
    var h: int := 0x4000_0000_0000_0000;
    assert Amounts(BalanceItems(THREE)) == [] + [h] + [h] + [SMALLEST];
    SumSnoc([] + [h] + [h], SMALLEST);
    SumSnoc([] + [h], h);
    SumSnoc([], h);
  }

  lemma ThreeSides()
    ensures Creditors(THREE) == [Entry(1, 0x4000_0000_0000_0000), Entry(2, 0x4000_0000_0000_0000)]
    ensures Owing(THREE) == [Entry(3, SMALLEST)]
  {
    var x, y, z := THREE[0], THREE[1], THREE[2];
    assert THREE == [] + [x] + [y] + [z];
    SideSnoc([], x);
    SideSnoc([] + [x], y);
    SideSnoc([] + [x] + [y], z);
    OwingSnoc([], x);
    OwingSnoc([] + [x], y);
    OwingSnoc([] + [x] + [y], z);
    WrapNegated(SMALLEST);
    hide Wrap;
  }

  lemma {:induction false} OneStuck(cs: seq<Entry>, id: UserId)
    requires cs != [] && InInt64(cs[0].amount)
    ensures Walked(cs, [Entry(id, SMALLEST)]) == [Debt(id, cs[0].id, SMALLEST)]
  {
    assert Remaining([Entry(id, SMALLEST)], SMALLEST) == [];
  }

  /** Two users owed 2^62 each and one owing 2^63: the one edge returned moves -2^63. */
  lemma SmallestBreaks()
    ensures Sum(Amounts(BalanceItems(THREE))) == 0
    ensures Suggested(THREE) == [Debt(3, 1, SMALLEST)]
  {
    ThreeSum();
    ThreeSides();
    assert Sorted(Creditors(THREE), Before()) && Sorted(Owing(THREE), Before());
    Already(Creditors(THREE));
    Already(Owing(THREE));
    hide SortBy;
    hide Walked;
    hide Sum;
    OneStuck(Creditors(THREE), 3);
  }
}
