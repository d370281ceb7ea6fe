/** Concrete runs of a group that settling up does not clear. */
module SettleUpRuns {
  import opened Entities
  import opened Numbers
  import opened Options
  import opened Grouping
  import opened Expenses
  import opened Ledger
  import opened LedgerLaws
  import opened LedgerRuns
  import opened SettleUp
  import Money
  import Debts
  import DebtsLaws

  // ----- expenses paid by user 1

  function Rowed(amount: int, rate: Option<real>, splits: seq<Split>): Expense { Expense(1, amount, rate, splits, false) }

  function PartsOf(splits: seq<Split>): (r: seq<Part>)
    requires forall i | 0 <= i < |splits| :: 0 <= splits[i].amount < TWO_63
    ensures |r| == |splits|
  {
    seq(|splits|, i requires 0 <= i < |splits| => Part(splits[i].user, Some(splits[i].amount)))
  }

  function AmountsOf(splits: seq<Split>): (r: seq<Int64>)
    requires forall i | 0 <= i < |splits| :: 0 <= splits[i].amount < TWO_63
    ensures |r| == |splits|
  {
    seq(|splits|, i requires 0 <= i < |splits| => splits[i].amount)
  }

  /** An EXACT expense with these rows. */
  function Exactly(amount: Int64, rate: Option<real>, splits: seq<Split>): Change
    requires forall i | 0 <= i < |splits| :: 0 <= splits[i].amount < TWO_63
  {
    Create(1, rate, Request(amount, EXACT, PartsOf(splits)), "", Rowed(amount, KeptRate(rate), splits), Money.Ok(AmountsOf(splits)),
           Identity(|splits|))
  }

  lemma ExactStep(g: Group, amount: Int64, rate: Option<real>, splits: seq<Split>, hash: string -> nat)
    requires amount > 0 && 0 < |splits| < TWO_63 && forall i | 0 <= i < |splits| :: 0 <= splits[i].amount < TWO_63
    requires forall i, j | 0 <= i < j < |splits| :: splits[i].user < splits[j].user
    requires rate.Some? ==> rate.value > 0.0 && StoredRate(rate.value) < 1000000.0
    requires Sum(AmountsOf(splits)) == amount
    ensures Step(g, Exactly(amount, rate, splits), g.(expenses := g.expenses + [Rowed(amount, KeptRate(rate), splits)]), hash)
    ensures Balanced(Exactly(amount, rate, splits))
  {
    var req, amounts := Request(amount, EXACT, PartsOf(splits)), AmountsOf(splits);
    assert Values(req.parts) == amounts;
    assert Rows(req.parts, amounts) == splits;
    assert Wrap(amount) == amount;
    hide Sum;
    hide StoredRate;
    hide Written;
    assert ModeSplit(req, Values(req.parts), "", hash) == Money.Ok(amounts);
    hide ModeSplit;
    hide Values;
    WrittenInOrder(req, amounts, rate, "", hash);
  }

  // ----- sums over one or two expenses without settlements

  lemma {:induction false} OneExpense(e: Expense, u: UserId)
    requires !e.deleted
    ensures Total(PaidItems([e]), u) == if e.payer == u then Converted(e.amount, RateOf(e)) else 0
    ensures Total(OwedItems([e]), u) == Total(ShareItems(e.splits, RateOf(e)), u)
  {
    hide Converted;
    assert [] + [e] == [e];
    PaidSnoc([], e, u);
    OwedSnoc([], e, u);
  }

  lemma {:induction false} TwoExpenses(e: Expense, f: Expense, u: UserId)
    requires !e.deleted && !f.deleted
    ensures Total(PaidItems([e, f]), u)
         == (if e.payer == u then Converted(e.amount, RateOf(e)) else 0) + (if f.payer == u then Converted(f.amount, RateOf(f)) else 0)
    ensures Total(OwedItems([e, f]), u) == Total(ShareItems(e.splits, RateOf(e)), u) + Total(ShareItems(f.splits, RateOf(f)), u)
  {
    hide Converted;
    hide PaidItems;
    hide OwedItems;
    assert [e] + [f] == [e, f];
    OneExpense(e, u);
    PaidSnoc([e], f, u);
    OwedSnoc([e], f, u);
  }

  lemma {:induction false} SingleTotals(x: Item<nat>, u: nat)
    ensures Total([x], u) == if x.key == u then x.value else 0
  {
    assert [x] == [] + [x];
    TotalSnoc([], x, u);
  }

  lemma {:induction false} PairTotals(x: Item<nat>, y: Item<nat>, u: nat)
    ensures Total([x, y], u) == (if x.key == u then x.value else 0) + (if y.key == u then y.value else 0)
  {
    assert [x, y] == [x] + [y];
    SingleTotals(x, u);
    TotalSnoc([x], y, u);
  }

  lemma {:induction false} NetWithoutSettlements(members: set<nat>, es: seq<Expense>, u: nat)
    ensures Net(Group(members, es, []), u) == Total(PaidItems(es), u) - Total(OwedItems(es), u)
    ensures Displayed(Group(members, es, []), u) == Wrap(Total(Counted(PaidItems(es)), u) - Total(Counted(OwedItems(es)), u))
  {
    LedgerLaws.EmptyTotal(u);
    hide PaidItems;
    hide OwedItems;
    hide Wrap;
    hide Counted;
  }

  /** Small non-negative rows: the map is reliable. */
  lemma {:induction false} SmallIsReliable(members: set<nat>, es: seq<Expense>)
    requires forall i | 0 <= i < |es| :: NonNegative(es[i])
    requires forall u: nat :: Total(PaidItems(es), u) < TWO_63 && Total(OwedItems(es), u) < TWO_63
    ensures Reliable(Group(members, es, []))
  {
    RowsNonNegative(es);
    SummableIff(PaidItems(es));
    SummableIff(OwedItems(es));
    forall u: nat
      ensures InInt64(Net(Group(members, es, []), u)) && Dropped(Group(members, es, []), u) % TWO_64 == 0
    {
      NetWithoutSettlements(members, es, u);
      TotalNonNegative(PaidItems(es), u);
      TotalNonNegative(OwedItems(es), u);
    }
  }

  // ----- a leaver who owes

  const OWED: seq<Split> := [Split(2, 100)]

  /** User 1 pays `amount` for user 2. */
  function Loan(amount: int): Expense { Rowed(amount, None, [Split(2, amount)]) }

  lemma {:induction false} LoanTotals(amount: int, u: nat)
    ensures Total(PaidItems([Loan(amount)]), u) == if u == 1 then amount else 0
    ensures Total(OwedItems([Loan(amount)]), u) == if u == 2 then amount else 0
  {
    RoundExact(amount);
    OneExpense(Loan(amount), u);
    hide Converted;
    assert ShareItems(Loan(amount).splits, 1.0) == [Item(2, amount)];
    SingleTotals(Item(2, amount), u);
  }

  lemma LoanNets(members: set<nat>, amount: int, u: nat)
    ensures Net(Group(members, [Loan(amount)], []), u) == (if u == 1 then amount else 0) - (if u == 2 then amount else 0)
  {
    LoanTotals(amount, u);
    NetWithoutSettlements(members, [Loan(amount)], u);
  }

  lemma LoanReliable(members: set<nat>, amount: int)
    requires 0 < amount < TWO_63
    ensures Reliable(Group(members, [Loan(amount)], []))
  {
    forall u: nat
      ensures Total(PaidItems([Loan(amount)]), u) < TWO_63 && Total(OwedItems([Loan(amount)]), u) < TWO_63
    {
      LoanTotals(amount, u);
    }
    assert NonNegative(Loan(amount));
    hide Loan;
    hide NonNegative;
    hide PaidItems;
    hide OwedItems;
    hide Total;
    SmallIsReliable(members, [Loan(amount)]);
  }

  lemma LoanStep(hash: string -> nat)
    ensures Step(Group({1, 2}, [], []), Exactly(100, None, OWED), Group({1, 2}, [Loan(100)], []), hash)
    ensures Balanced(Exactly(100, None, OWED))
  {
    assert AmountsOf(OWED) == [100];
    Money.SingleSum(AmountsOf(OWED));
    hide Sum;
    ExactStep(Group({1, 2}, [], []), 100, None, OWED, hash);
    hide Step;
    hide Balanced;
  }

  lemma MemberSteps(es: seq<Expense>, hash: string -> nat)
    ensures Step(Group({}, [], []), Join(1), Group({1}, [], []), hash)
    ensures Step(Group({1}, [], []), Join(2), Group({1, 2}, [], []), hash)
    ensures Step(Group({1, 2}, [], []), Join(3), Group({1, 2, 3}, [], []), hash)
    ensures Step(Group({1, 2}, es, []), Leave(2), Group({1}, es, []), hash)
  {
  }

  lemma LoanRun(hash: string -> nat) returns (states: seq<Group>, changes: seq<Change>)
    ensures Run(states, changes, hash) && AllBalanced(changes) && states[|changes|] == Group({1}, [Loan(100)], [])
  {
    var create := Exactly(100, None, OWED);
    states := [Group({}, [], []), Group({1}, [], []), Group({1, 2}, [], []), Group({1, 2}, [Loan(100)], []), Group({1}, [Loan(100)], [])];
    changes := [Join(1), Join(2), create, Leave(2)];
    LoanStep(hash);
    MemberSteps([Loan(100)], hash);
    hide Step;
    hide Exactly;
    hide Loan;
  }

  /** Two users join, one pays 100 for the other, and the other leaves. */
  lemma UnsettledLeaver(hash: string -> nat) returns (states: seq<Group>, changes: seq<Change>)
    ensures Run(states, changes, hash) && AllBalanced(changes) && Unrated(states[|changes|].expenses)
    ensures Reliable(states[|changes|])
    ensures Net(states[|changes|], 1) == 100 && Net(states[|changes|], 2) == -100
    ensures !UnsettledAreMembers(states[|changes|])
  {
    states, changes := LoanRun(hash);
    hide Run;
    hide AllBalanced;
    LoanReliable({1}, 100);
    LoanNets({1}, 100, 1);
    LoanNets({1}, 100, 2);
    hide Net;
    hide Reliable;
  }

  /** An edge suggested for the group is refused, and the accepted ones do not clear it. */
  ghost predicate Blocked(g: Group, users: seq<nat>) {
    !AllAccepted(g, Edges(g, users)) && exists u :: Net(Recorded(g, AcceptedEdges(g, Edges(g, users))), u) != 0
  }

  lemma BlockedIff(g: Group, users: seq<nat>)
    requires MapKeys(users, g) && Reliable(g) && TotalDrift(g.expenses) == 0
    ensures Blocked(g, users) <==> !(Negatable(g) && UnsettledAreMembers(g))
  {
    EdgesAcceptedIff(g, users);
    SubmittingClearsIff(g, users);
    hide Net;
    hide Recorded;
    hide MapKeys;
    hide Edges;
    hide UnsettledAreMembers;
    hide AllAccepted;
    hide Negatable;
  }

  /** In that run, balanced, reliable and without rates, the leaver blocks settling up. */
  lemma LeaverBlocksSettlingUp(hash: string -> nat) returns (states: seq<Group>, changes: seq<Change>)
    ensures Run(states, changes, hash) && AllBalanced(changes) && Unrated(states[|changes|].expenses)
    ensures Reliable(states[|changes|])
    ensures Net(states[|changes|], 1) == 100 && Net(states[|changes|], 2) == -100
    ensures forall users | MapKeys(users, states[|changes|]) :: Blocked(states[|changes|], users)
  {
    states, changes := UnsettledLeaver(hash);
    assert |states| == |changes| + 1;
    hide *;
    forall users | MapKeys(users, states[|changes|])
      ensures Blocked(states[|changes|], users)
    {
      BalancesSumToZero(states, changes, hash, users);
      BlockedIff(states[|changes|], users);
    }
  }

  // ----- a balance without a negation

  function Gift(from: nat): Settlement { Settlement(from, 3, TWO_62, false) }

  /** Users 1 and 2 each send 2^62 to user 3, who then owes 2^63. */
  function Gifted(): Group { Group({1, 2, 3}, [], [Gift(1), Gift(2)]) }

  lemma GiftNets(u: nat)
    ensures Net(Gifted(), u) == if u == 1 || u == 2 then TWO_62 else if u == 3 then -TWO_63 else 0
  {
    var s, t := Gift(1), Gift(2);
    assert [s, t][..1] == [s] && [s][..0] == [];
    assert LiveSettlements([s]) == [s] && LiveSettlements([s, t]) == [s, t];
    hide LiveSettlements;
    assert [] + [s] == [s] && [s] + [t] == [s, t];
    SettlementSnoc([], s, u);
    SettlementSnoc([s], t, u);
    LedgerLaws.EmptyTotal(u);
  }

  lemma GiftReliable()
    ensures Reliable(Gifted()) && Unrated(Gifted().expenses)
  {
    var none: seq<Item<nat>> := [];
    assert PaidItems(Gifted().expenses) == none && OwedItems(Gifted().expenses) == none;
    forall u: nat
      ensures Castable(none, u)
    {
      LedgerLaws.EmptyTotal(u);
    }
    assert Summable(none);
    forall u: nat
      ensures InInt64(Net(Gifted(), u)) && Dropped(Gifted(), u) % TWO_64 == 0
    {
      GiftNets(u);
      hide Net;
      hide Summable;
    }
  }

  lemma GiftRun(hash: string -> nat) returns (states: seq<Group>, changes: seq<Change>)
    ensures Run(states, changes, hash) && AllBalanced(changes) && states[|changes|] == Gifted()
  {
    var g := Group({1, 2, 3}, [], []);
    states := [Group({}, [], []), Group({1}, [], []), Group({1, 2}, [], []), g, g.(settlements := [Gift(1)]), Gifted()];
    changes := [Join(1), Join(2), Join(3), Settle(1, 3, TWO_62), Settle(2, 3, TWO_62)];
    MemberSteps([], hash);
    assert Step(states[3], changes[3], states[4], hash);
    assert Step(states[4], changes[4], states[5], hash);
    hide Step;
    hide Gifted;
  }

  /** A balanced run without rates whose map is right: the debtor's balance is the smallest int64,
      and settling up is blocked although everyone is a member. */
  lemma SmallestBlocksSettlingUp(hash: string -> nat) returns (states: seq<Group>, changes: seq<Change>)
    ensures Run(states, changes, hash) && AllBalanced(changes) && Unrated(states[|changes|].expenses)
    ensures Reliable(states[|changes|]) && UnsettledAreMembers(states[|changes|])
    ensures Net(states[|changes|], 3) == -TWO_63
    ensures forall users | MapKeys(users, states[|changes|]) :: Blocked(states[|changes|], users)
  {
    states, changes := GiftRun(hash);
    assert |states| == |changes| + 1;
    var g := states[|changes|];
    GiftReliable();
    GiftMembers();
    GiftNets(3);
    ReliableShows(g, 3);
    hide *;
    NotNegatable(g, 3);
    forall users | MapKeys(users, g)
      ensures Blocked(g, users)
    {
      BalancesSumToZero(states, changes, hash, users);
      BlockedIff(g, users);
    }
  }

  lemma GiftMembers()
    ensures UnsettledAreMembers(Gifted())
  {
    forall u: nat | Net(Gifted(), u) != 0
      ensures u in Gifted().members
    {
      GiftNets(u);
    }
    hide Net;
  }

  lemma NotNegatable(g: Group, u: nat)
    requires Displayed(g, u) == -TWO_63
    ensures !Negatable(g)
  {
  }

  // ----- sums that leave bigint

  const TWO_61: int := 0x2000_0000_0000_0000
  const TWO_62: int := 0x4000_0000_0000_0000
  const HALVES: seq<Split> := [Split(1, TWO_61), Split(2, TWO_61)]

  /** User 1 pays 2^62 for users 1 and 2. */
  function Shared(): Expense { Rowed(TWO_62, None, HALVES) }

  lemma SharedStep(members: set<nat>, es: seq<Expense>, hash: string -> nat)
    ensures Step(Group(members, es, []), Exactly(TWO_62, None, HALVES), Group(members, es + [Shared()], []), hash)
    ensures Balanced(Exactly(TWO_62, None, HALVES))
  {
    assert AmountsOf(HALVES) == [TWO_61, TWO_61];
    Money.PairSum(AmountsOf(HALVES));
    hide Sum;
    ExactStep(Group(members, es, []), TWO_62, None, HALVES, hash);
    hide Step;
    hide Balanced;
  }

  lemma SharedRun(hash: string -> nat) returns (states: seq<Group>, changes: seq<Change>)
    ensures Run(states, changes, hash) && AllBalanced(changes) && states[|changes|] == Group({1, 2}, [Shared(), Shared()], [])
  {
    var create := Exactly(TWO_62, None, HALVES);
    states := [Group({}, [], []), Group({1}, [], []), Group({1, 2}, [], []), Group({1, 2}, [Shared()], []), Group({1, 2}, [Shared(), Shared()], [])];
    changes := [Join(1), Join(2), create, create];
    SharedStep({1, 2}, [], hash);
    SharedStep({1, 2}, [Shared()], hash);
    assert [] + [Shared()] == [Shared()] && [Shared()] + [Shared()] == [Shared(), Shared()];
    MemberSteps([], hash);
    hide Step;
    hide Exactly;
    hide Shared;
  }

  lemma {:induction false} SharedTotals(u: nat)
    ensures Total(PaidItems([Shared(), Shared()]), u) == if u == 1 then TWO_63 else 0
    ensures Total(OwedItems([Shared(), Shared()]), u) == if u == 1 || u == 2 then TWO_62 else 0
  {
    RoundExact(TWO_62);
    RoundExact(TWO_61);
    TwoExpenses(Shared(), Shared(), u);
    hide Converted;
    assert ShareItems(HALVES, 1.0) == [Item(1, TWO_61), Item(2, TWO_61)];
    PairTotals(Item(1, TWO_61), Item(2, TWO_61), u);
  }

  /** The query of what was paid fails, the one of what is owed answers. */
  lemma SharedCounted()
    ensures Counted(PaidItems([Shared(), Shared()])) == []
    ensures Counted(OwedItems([Shared(), Shared()])) == OwedItems([Shared(), Shared()])
  {
    var es := [Shared(), Shared()];
    forall u: nat
      ensures Total(OwedItems(es), u) < TWO_63
    {
      SharedTotals(u);
    }
    SharedTotals(1);
    assert forall i | 0 <= i < |es| :: NonNegative(es[i]);
    hide PaidItems;
    hide OwedItems;
    RowsNonNegative(es);
    SummableIff(PaidItems(es));
    SummableIff(OwedItems(es));
  }

  lemma SharedDisplayed(u: nat)
    ensures var g := Group({1, 2}, [Shared(), Shared()], []);
            && Displayed(g, u) == (if u == 1 || u == 2 then -TWO_62 else 0)
            && Net(g, u) == if u == 1 then TWO_62 else if u == 2 then -TWO_62 else 0
  {
    SharedCounted();
    SharedTotals(u);
    NetWithoutSettlements({1, 2}, [Shared(), Shared()], u);
    LedgerLaws.EmptyTotal(u);
    hide Net;
    hide Displayed;
    hide Counted;
    hide PaidItems;
    hide OwedItems;
  }

  /** Where nobody is shown a positive balance, or nobody a negative one, nothing is suggested. */
  lemma OneSidedMap(g: Group, users: seq<nat>)
    requires MapKeys(users, g) && Negatable(g)
    requires (forall u: nat :: Displayed(g, u) <= 0) || (forall u: nat :: Displayed(g, u) >= 0)
    ensures Edges(g, users) == []
  {
    hide Displayed;
    hide MapKeys;
    hide Edges;
    hide Ordinary;
    hide Negatable;
    EdgesAccepted(g, users);
    if Ordinary(g, users) != [] {
      OrdinaryEdge(g, users, 0);
    }
  }

  lemma {:induction false} DisplaysTotal(g: Group, users: seq<nat>, items: seq<Item<nat>>)
    requires MapKeys(users, g) && forall u: nat :: Displayed(g, u) == Total(items, u)
    ensures Sum(Displays(g, users)) == Sum(Amounts(items))
  {
    forall u: nat | u !in users
      ensures Total(items, u) == 0
    {
      OutsideMap(g, u);
    }
    hide Displayed;
    hide Total;
    hide InMap;
    hide Sum;
    SparseSum(items, users);
    assert Displays(g, users) == Totals(items, users);
  }

  /** The map sums to -2^63, and nothing is suggested. */
  ghost predicate Misled(g: Group, users: seq<nat>) {
    Sum(Displays(g, users)) == -TWO_63 && Edges(g, users) == []
  }

  lemma SharedMap(g: Group, users: seq<nat>)
    requires g == Group({1, 2}, [Shared(), Shared()], []) && MapKeys(users, g)
    ensures Misled(g, users)
  {
    var items := [Item(1, -TWO_62), Item(2, -TWO_62)];
    assert Amounts(items) == [-TWO_62, -TWO_62];
    Money.PairSum(Amounts(items));
    hide Shared;
    hide Displayed;
    hide MapKeys;
    hide Sum;
    hide Total;
    forall u: nat
      ensures Displayed(g, u) == Total(items, u) <= 0
    {
      SharedDisplayed(u);
      PairTotals(items[0], items[1], u);
    }
    DisplaysTotal(g, users, items);
    OneSidedMap(g, users);
  }

  lemma SharedState(g: Group)
    requires g == Group({1, 2}, [Shared(), Shared()], [])
    ensures Unrated(g.expenses) && !Reliable(g)
    ensures Net(g, 1) == TWO_62 && Net(g, 2) == -TWO_62
    ensures Displayed(g, 1) == -TWO_62 && Displayed(g, 2) == -TWO_62
  {
    assert Unrated(g.expenses);
    hide Shared;
    hide Displayed;
    hide Net;
    hide Reliable;
    hide Unrated;
    SharedDisplayed(1);
    SharedDisplayed(2);
    ShowsLedgerIff(g);
    assert Displayed(g, 1) != Net(g, 1);
  }

  /** A balanced run without rates after which the map of the handler shows two users owing 2^62
      each, though the ledger has one owe it to the other. */
  lemma OverflowBreaksTheMap(hash: string -> nat) returns (states: seq<Group>, changes: seq<Change>)
    ensures Run(states, changes, hash) && AllBalanced(changes) && Unrated(states[|changes|].expenses)
    ensures var g := states[|changes|];
            && Net(g, 1) == TWO_62 && Net(g, 2) == -TWO_62
            && Displayed(g, 1) == -TWO_62 && Displayed(g, 2) == -TWO_62
            && !Reliable(g)
            && forall users | MapKeys(users, g) :: Misled(g, users)
  {
    states, changes := SharedRun(hash);
    assert |states| == |changes| + 1;
    hide *;
    var g := states[|changes|];
    SharedState(g);
    forall users | MapKeys(users, g)
      ensures Misled(g, users)
    {
      SharedMap(g, users);
    }
  }

  // ----- a credit nobody owes

  const ONES: seq<Split> := [Split(1, 1), Split(2, 1), Split(3, 1)]

  /** User 1 pays 3 at a rate of 0.3 for three users: 1 once rounded, and nothing for each. */
  function Tiny(): Expense { Rowed(3, Some(0.3), ONES) }

  lemma TinyStep(hash: string -> nat)
    ensures Step(Group({1, 2, 3}, [], []), Exactly(3, Some(0.3), ONES), Group({1, 2, 3}, [Tiny()], []), hash)
    ensures Balanced(Exactly(3, Some(0.3), ONES))
  {
    assert AmountsOf(ONES) == [1, 1, 1];
    TripleSum(AmountsOf(ONES));
    hide Sum;
    assert StoredRate(0.3) == 0.3 by { assert 0.3 * 1000000.0 == 300000.0; }
    ExactStep(Group({1, 2, 3}, [], []), 3, Some(0.3), ONES, hash);
    hide Step;
    hide Balanced;
  }

  lemma {:induction false} TripleSum(s: seq<int>)
    requires |s| == 3
    ensures Sum(s) == s[0] + s[1] + s[2]
  {
    Money.PairSum(s[..2]);
  }

  lemma TinyRun(hash: string -> nat) returns (states: seq<Group>, changes: seq<Change>)
    ensures Run(states, changes, hash) && AllBalanced(changes) && states[|changes|] == Group({1, 2, 3}, [Tiny()], [])
  {
    var create := Exactly(3, Some(0.3), ONES);
    states := [Group({}, [], []), Group({1}, [], []), Group({1, 2}, [], []), Group({1, 2, 3}, [], []), Group({1, 2, 3}, [Tiny()], [])];
    changes := [Join(1), Join(2), Join(3), create];
    TinyStep(hash);
    MemberSteps([], hash);
    hide Step;
    hide Exactly;
    hide Tiny;
  }

  lemma {:induction false} TinyTotals(u: nat)
    ensures Total(PaidItems([Tiny()]), u) == if u == 1 then 1 else 0
    ensures Total(OwedItems([Tiny()]), u) == 0
  {
    assert 3 as real * 0.3 == 0.9 && 1 as real * 0.3 == 0.3;
    assert Converted(3, 0.3) == 1 && Converted(1, 0.3) == 0;
    OneExpense(Tiny(), u);
    hide Converted;
    assert ShareItems(ONES, 0.3) == [Item(1, 0), Item(2, 0)] + [Item(3, 0)];
    PairTotals(Item(1, 0), Item(2, 0), u);
    TotalSnoc([Item(1, 0), Item(2, 0)], Item(3, 0), u);
  }

  lemma TinyReliable()
    ensures Reliable(Group({1, 2, 3}, [Tiny()], []))
  {
    forall u: nat
      ensures Total(PaidItems([Tiny()]), u) < TWO_63 && Total(OwedItems([Tiny()]), u) < TWO_63
    {
      TinyTotals(u);
    }
    assert NonNegative(Tiny());
    hide Tiny;
    hide NonNegative;
    hide PaidItems;
    hide OwedItems;
    SmallIsReliable({1, 2, 3}, [Tiny()]);
  }

  lemma TinyDisplayed(u: nat)
    ensures Displayed(Group({1, 2, 3}, [Tiny()], []), u) == if u == 1 then 1 else 0
  {
    hide *;
    TinyReliable();
    TinyTotals(u);
    NetWithoutSettlements({1, 2, 3}, [Tiny()], u);
    ReliableShows(Group({1, 2, 3}, [Tiny()], []), u);
  }

  lemma ReliableShows(g: Group, u: nat)
    requires Reliable(g)
    ensures Displayed(g, u) == Net(g, u)
  {
    ShowsLedgerIff(g);
  }

  /** The edges do not sum to the positive balances: there are none. */
  ghost predicate CreditLeft(g: Group, users: seq<nat>) {
    var balances := Balances(g, users);
    Edges(g, users) == [] && DebtsLaws.Moved(Edges(g, users)) != DebtsLaws.SumOf(Debts.Creditors(balances))
  }

  lemma CreditLeftBy(g: Group, users: seq<nat>)
    requires MapKeys(users, g) && Negatable(g) && Sum(Displays(g, users)) > 0 && Edges(g, users) == []
    ensures CreditLeft(g, users)
  {
    hide *;
    BalanceIsDisplayed(g, users, 0);
    var rest := EdgesSplit(g, users);
    DebtsLaws.MoneyMoved(Balances(g, users));
    CreditLeftIs(g, users);
  }

  lemma CreditLeftIs(g: Group, users: seq<nat>)
    requires Edges(g, users) == [] && DebtsLaws.Moved(Edges(g, users)) != DebtsLaws.SumOf(Debts.Creditors(Balances(g, users)))
    ensures CreditLeft(g, users)
  {
    hide Edges;
    hide Balances;
    hide DebtsLaws.Moved;
    hide DebtsLaws.SumOf;
  }

  lemma TinyMap(g: Group, users: seq<nat>)
    requires g == Group({1, 2, 3}, [Tiny()], []) && MapKeys(users, g)
    ensures CreditLeft(g, users)
  {
    var items := [Item(1, 1)];
    assert Amounts(items) == [1];
    Money.SingleSum(Amounts(items));
    hide Tiny;
    hide Displayed;
    hide MapKeys;
    hide Sum;
    hide Total;
    hide CreditLeft;
    forall u: nat
      ensures Displayed(g, u) == Total(items, u) >= 0
    {
      TinyDisplayed(u);
      SingleTotals(items[0], u);
    }
    DisplaysTotal(g, users, items);
    OneSidedMap(g, users);
    CreditLeftBy(g, users);
  }

  /** A balanced run after which one user is shown a credit of 1 that nobody owes: no edge is
      suggested. */
  lemma RoundingLeavesCredit(hash: string -> nat) returns (states: seq<Group>, changes: seq<Change>)
    ensures Run(states, changes, hash) && AllBalanced(changes)
    ensures var g := states[|changes|];
            Reliable(g) && Displayed(g, 1) == 1 && forall users | MapKeys(users, g) :: CreditLeft(g, users)
  {
    states, changes := TinyRun(hash);
    assert |states| == |changes| + 1;
    hide *;
    var g := states[|changes|];
    TinyReliable();
    TinyDisplayed(1);
    forall users | MapKeys(users, g)
      ensures CreditLeft(g, users)
    {
      TinyMap(g, users);
    }
  }
}
