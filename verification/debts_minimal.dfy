/** When the settlement is as short as it can be. internal/debts/simplify.go calls its result
    minimal; it is exactly when no split of the balances into zero-sum blocks has more blocks than
    the sorted credits and the sorted debts have common partial sums. */
module DebtsMinimal {
  import opened Entities
  import opened Numbers
  import opened Sorting
  import opened Grouping
  import opened Debts
  import opened DebtsLaws

  ghost predicate Clears(balances: seq<Balance>, debts: seq<Debt>) {
    forall u :: Residual(balances, debts, u) == 0
  }

  /** No list of transfers that clears the balances is shorter. */
  ghost predicate Minimal(balances: seq<Balance>, debts: seq<Debt>) {
    forall other :: Clears(balances, other) ==> |debts| <= |other|
  }

  // ----- blocks of users

  type Labels = UserId -> nat

  function Relabelled(items: seq<Item<UserId>>, block: Labels): (r: seq<Item<nat>>)
    ensures |r| == |items|
  {
    Map((i: Item<UserId>) => Item(block(i.key), i.value), items)
  }

  /** The balances of the users in each block sum to zero. */
  ghost predicate ZeroSumBlocks(balances: seq<Balance>, block: Labels) {
    forall k :: Total(Relabelled(BalanceItems(balances), block), k) == 0
  }

  function Labelled(users: set<UserId>, block: Labels): set<nat> {
    set u | u in users :: block(u)
  }

  /** Blocks with someone unsettled in them. */
  function Blocks(balances: seq<Balance>, block: Labels): set<nat> {
    Labelled(Unsettled(balances), block)
  }

  // ----- every clearing list splits the users into many blocks

  ghost predicate Joined(debts: seq<Debt>, block: Labels) {
    forall d | d in debts :: block(d.from) == block(d.to)
  }

  lemma MergeLosesOne(users: set<UserId>, block: Labels, merged: Labels, a: nat, b: nat)
    requires forall u :: merged(u) == if block(u) == b then a else block(u)
    ensures |Labelled(users, block)| <= |Labelled(users, merged)| + 1
  {
    var before, after := Labelled(users, block), Labelled(users, merged);
    forall k | k in before && k != b
      ensures k in after
    {
      var u :| u in users && block(u) == k;
      assert merged(u) == k;
    }
    CardSubset(before, after + {b});
    if b !in after { assert |after + {b}| == |after| + 1; } else { assert after + {b} == after; }
  }

  /** Users joined by the transfers share a block, and each transfer joins at most two blocks. */
  lemma {:induction false} Components(debts: seq<Debt>, users: set<UserId>) returns (block: Labels)
    ensures Joined(debts, block)
    ensures |users| <= |Labelled(users, block)| + |debts|
  {
    if debts == [] {
      block := u => u;
      assert Labelled(users, block) == users;
    } else {
      var d, rest := debts[0], debts[1..];
      var was := Components(rest, users);
      var a, b := was(d.from), was(d.to);
      block := u => if was(u) == b then a else was(u);
      MergeLosesOne(users, was, block, a, b);
      forall e | e in debts
        ensures block(e.from) == block(e.to)
      {
        assert debts == [d] + rest;
        if e in rest { assert was(e.from) == was(e.to); }
      }
    }
  }

  lemma {:induction false} PairCancels(d: Debt, rest: seq<Debt>, block: Labels, k: nat)
    requires block(d.from) == block(d.to)
    ensures Total(Relabelled(TransferItems([d] + rest), block), k) == Total(Relabelled(TransferItems(rest), block), k)
  {
    var a, b := Item(block(d.from), d.amount), Item(block(d.to), -d.amount);
    assert ([d] + rest)[1..] == rest;
    assert Relabelled(TransferItems([d] + rest), block) == ([] + [a] + [b]) + Relabelled(TransferItems(rest), block);
    hide Total;
    hide Relabelled;
    TotalAppend([] + [a] + [b], Relabelled(TransferItems(rest), block), k);
    TotalSnoc([] + [a], b, k);
    TotalSnoc([], a, k);
    EmptyTotal(k);
  }

  lemma {:induction false} JoinedCancel(debts: seq<Debt>, block: Labels, k: nat)
    requires Joined(debts, block)
    ensures Total(Relabelled(TransferItems(debts), block), k) == 0
  {
    if debts != [] {
      assert debts == [debts[0]] + debts[1..];
      assert debts[0] in debts && forall e | e in debts[1..] :: e in debts;
      hide Total;
      hide Relabelled;
      hide TransferItems;
      JoinedCancel(debts[1..], block, k);
      PairCancels(debts[0], debts[1..], block, k);
    }
  }

  lemma {:induction false} EmptyTotal(k: nat)
    ensures Total<nat>([], k) == 0
  {
  }

  /** The items of one block, the others at zero. */
  function Within(items: seq<Item<UserId>>, block: Labels, k: nat): (r: seq<Item<UserId>>)
    ensures |r| == |items|
  {
    Map((i: Item<UserId>) => if block(i.key) == k then i else Item(i.key, 0), items)
  }

  lemma {:induction false} WithinTotals(items: seq<Item<UserId>>, block: Labels, k: nat, u: UserId)
    ensures Total(Within(items, block, k), u) == if block(u) == k then Total(items, u) else 0
    ensures Sum(Amounts(Within(items, block, k))) == Total(Relabelled(items, block), k)
  {
    if items != [] {
      var n := |items| - 1;
      WithinTotals(items[..n], block, k, u);
      assert Within(items, block, k)[..n] == Within(items[..n], block, k);
      assert Relabelled(items, block)[..n] == Relabelled(items[..n], block);
      assert Amounts(Within(items, block, k))[..n] == Amounts(Within(items[..n], block, k));
    }
  }

  /** Where every user's total is zero, so is every block's. */
  lemma {:induction false} RegroupZero(items: seq<Item<UserId>>, block: Labels, k: nat)
    requires forall u :: Total(items, u) == 0
    ensures Total(Relabelled(items, block), k) == 0
  {
    var kept := Within(items, block, k);
    forall u
      ensures Total(kept, u) == 0
    {
      WithinTotals(items, block, k, u);
    }
    GroupsSum(kept, Keys(kept));
    SumZero(Totals(kept, Keys(kept)));
    WithinTotals(items, block, k, 0);
  }

  /** A list of transfers that clears the balances splits the unsettled users into zero-sum
      blocks, at least as many as there are users less transfers. */
  lemma ClearingSplits(balances: seq<Balance>, other: seq<Debt>) returns (block: Labels)
    requires Clears(balances, other)
    ensures ZeroSumBlocks(balances, block)
    ensures |Unsettled(balances)| <= |Blocks(balances, block)| + |other|
  {
    block := Components(other, Unsettled(balances));
    var items, moved := BalanceItems(balances), TransferItems(other);
    forall u
      ensures Total(items + moved, u) == 0
    {
      assert Residual(balances, other, u) == 0;
      TotalAppend(items, moved, u);
    }
    hide Total;
    forall k
      ensures Total(Relabelled(items, block), k) == 0
    {
      RegroupZero(items + moved, block, k);
      JoinedCancel(other, block, k);
      assert Relabelled(items + moved, block) == Relabelled(items, block) + Relabelled(moved, block);
      TotalAppend(Relabelled(items, block), Relabelled(moved, block), k);
    }
  }

  // ----- every split into blocks gives a clearing list

  /** The balances of one block. */
  function Only(balances: seq<Balance>, block: Labels, k: nat): (r: seq<Balance>)
    ensures forall b :: b in r <==> b in balances && block(b.user) == k
  {
    if balances == [] then []
    else
      var front, b := balances[..|balances| - 1], balances[|balances| - 1];
      assert balances == front + [b];
      Only(front, block, k) + if block(b.user) == k then [b] else []
  }

  lemma {:induction false} OnlyDistinct(balances: seq<Balance>, block: Labels, k: nat)
    requires DistinctUsers(balances)
    ensures DistinctUsers(Only(balances, block, k))
  {
    if balances != [] {
      var front, b := balances[..|balances| - 1], balances[|balances| - 1];
      OnlyDistinct(front, block, k);
      forall x | x in Only(front, block, k)
        ensures x.user != b.user
      {
        assert x in front;
        var i :| 0 <= i < |front| && front[i] == x;
        assert balances[i] == x;
      }
    }
  }

  lemma {:induction false} BlockTotalStep(balances: seq<Balance>, block: Labels, k: nat)
    requires balances != []
    ensures var b := balances[|balances| - 1];
            Total(Relabelled(BalanceItems(balances), block), k)
            == Total(Relabelled(BalanceItems(balances[..|balances| - 1]), block), k) + if block(b.user) == k then b.amount else 0
  {
    var n := |balances| - 1;
    assert Relabelled(BalanceItems(balances), block)[..n] == Relabelled(BalanceItems(balances[..n]), block);
  }

  lemma {:induction false} OnlyTotals(balances: seq<Balance>, block: Labels, k: nat, u: UserId)
    ensures BalanceOf(Only(balances, block, k), u) == if block(u) == k then BalanceOf(balances, u) else 0
    ensures Sum(Amounts(BalanceItems(Only(balances, block, k)))) == Total(Relabelled(BalanceItems(balances), block), k)
  {
    if balances != [] {
      var front, b := balances[..|balances| - 1], balances[|balances| - 1];
      OnlyTotals(front, block, k, u);
      BlockTotalStep(balances, block, k);
      BalanceStep(balances, u);
      var kept := Only(front, block, k);
      if block(b.user) == k {
        assert (kept + [b])[..|kept|] == kept;
        BalanceStep(kept + [b], u);
      } else {
        assert kept + [] == kept;
      }
      hide BalanceOf;
      hide Total;
      hide Sum;
    }
  }

  function Members(balances: seq<Balance>, block: Labels, blocks: set<nat>): set<UserId> {
    set u | u in Unsettled(balances) && block(u) in blocks
  }

  lemma {:induction false} OnlyMembers(balances: seq<Balance>, block: Labels, k: nat)
    ensures Unsettled(Only(balances, block, k)) == Members(balances, block, {k})
  {
    forall u | u in Members(balances, block, {k})
      ensures u in Unsettled(Only(balances, block, k))
    {
      var b :| b in balances && b.amount != 0 && b.user == u;
      assert b in Only(balances, block, k);
    }
  }

  lemma FewerEdges(balances: seq<Balance>)
    requires DistinctUsers(balances) && Unsettled(balances) != {}
    ensures |Simplified(balances)| + 1 <= |Unsettled(balances)|
  {
    hide Unsettled;
    hide Simplified;
    hide Creditors;
    hide Debtors;
    hide EdgeBetween;
    hide Among;
    var bound := LargestAmount(balances);
    UnsettledCount(balances);
    SimplifyEdges(balances, bound);
  }

  /** One block is cleared by fewer transfers than it has unsettled users. */
  lemma ClearBlock(balances: seq<Balance>, block: Labels, k: nat) returns (debts: seq<Debt>)
    requires DistinctUsers(balances) && ZeroSumBlocks(balances, block) && k in Blocks(balances, block)
    ensures |debts| + 1 <= |Members(balances, block, {k})|
    ensures forall u :: Total(TransferItems(debts), u) == if block(u) == k then -BalanceOf(balances, u) else 0
  {
    var kept := Only(balances, block, k);
    debts := Simplified(kept);
    var u0 :| u0 in Unsettled(balances) && block(u0) == k;
    assert u0 in Members(balances, block, {k});
    assert Total(Relabelled(BalanceItems(balances), block), k) == 0;
    hide *;
    OnlyDistinct(balances, block, k);
    OnlyMembers(balances, block, k);
    FewerEdges(kept);
    forall u
      ensures Total(TransferItems(debts), u) == if block(u) == k then -BalanceOf(balances, u) else 0
    {
      OnlyTotals(balances, block, k, u);
      SimplifySettles(kept, u);
      ResidualIs(kept, debts, u);
    }
  }

  lemma {:induction false} ResidualIs(balances: seq<Balance>, debts: seq<Debt>, u: UserId)
    ensures Residual(balances, debts, u) == BalanceOf(balances, u) + Total(TransferItems(debts), u)
  {
  }

  lemma {:induction false} TransfersAppend(s: seq<Debt>, t: seq<Debt>, u: UserId)
    ensures Total(TransferItems(s + t), u) == Total(TransferItems(s), u) + Total(TransferItems(t), u)
  {
    if s == [] {
      assert s + t == t;
    } else {
      assert s == [s[0]] + s[1..] && s + t == [s[0]] + (s[1..] + t);
      TransfersAppend(s[1..], t, u);
      TransferStep(s[0], s[1..], u);
      TransferStep(s[0], s[1..] + t, u);
      hide *;
    }
  }

  lemma MembersSplit(balances: seq<Balance>, block: Labels, blocks: set<nat>, k: nat)
    requires k in blocks
    ensures |Members(balances, block, blocks)| == |Members(balances, block, blocks - {k})| + |Members(balances, block, {k})|
  {
    assert Members(balances, block, blocks) == Members(balances, block, blocks - {k}) + Members(balances, block, {k});
  }

  lemma {:induction false} ClearBlocks(balances: seq<Balance>, block: Labels, blocks: set<nat>) returns (debts: seq<Debt>)
    requires DistinctUsers(balances) && ZeroSumBlocks(balances, block) && blocks <= Blocks(balances, block)
    ensures |debts| + |blocks| <= |Members(balances, block, blocks)|
    ensures forall u :: Total(TransferItems(debts), u) == if block(u) in blocks then -BalanceOf(balances, u) else 0
    decreases blocks
  {
    if blocks == {} {
      debts := [];
    } else {
      var k :| k in blocks;
      var first := ClearBlock(balances, block, k);
      var rest := ClearBlocks(balances, block, blocks - {k});
      debts := first + rest;
      hide *;
      MembersSplit(balances, block, blocks, k);
      assert |blocks - {k}| == |blocks| - 1;
      forall u
        ensures Total(TransferItems(debts), u) == if block(u) in blocks then -BalanceOf(balances, u) else 0
      {
        TransfersAppend(first, rest, u);
      }
    }
  }

  lemma SettledZero(balances: seq<Balance>, u: UserId)
    requires DistinctUsers(balances) && u !in Unsettled(balances)
    ensures BalanceOf(balances, u) == 0
  {
    if i :| 0 <= i < |balances| && balances[i].user == u {
      assert balances[i] in balances;
      DistinctBalance(balances, i);
    } else {
      TotalAbsent(BalanceItems(balances), u);
    }
  }

  /** A split of the balances into zero-sum blocks gives a list of transfers that clears them,
      one transfer short of the unsettled users for each block. */
  lemma SplitClears(balances: seq<Balance>, block: Labels) returns (debts: seq<Debt>)
    requires DistinctUsers(balances) && ZeroSumBlocks(balances, block)
    ensures Clears(balances, debts)
    ensures |debts| + |Blocks(balances, block)| <= |Unsettled(balances)|
  {
    var blocks := Blocks(balances, block);
    debts := ClearBlocks(balances, block, blocks);
    assert Members(balances, block, blocks) == Unsettled(balances);
    forall u
      ensures Residual(balances, debts, u) == 0
    {
      if u !in Unsettled(balances) { SettledZero(balances, u); }
      hide BalanceOf;
      hide Total;
      ResidualIs(balances, debts, u);
    }
  }

  // ----- how many edges the walk makes

  /** The partial sums of the amounts, above `from`. */
  function Cuts(es: seq<Entry>, from: int): set<int> {
    if es == [] then {} else {from + es[0].amount} + Cuts(es[1..], from + es[0].amount)
  }

  lemma {:induction false} CutsAbove(es: seq<Entry>, from: int)
    requires Positive(es)
    ensures forall c | c in Cuts(es, from) :: c > from
    ensures |Cuts(es, from)| == |es|
  {
    if es != [] {
      CutsAbove(es[1..], from + es[0].amount);
    }
  }

  lemma CutsReduce(es: seq<Entry>, from: int, amount: int)
    requires es != [] && amount <= es[0].amount
    ensures Cuts(es, from) == Cuts(Reduce(es, amount), from + amount) + if es[0].amount == amount then {from + amount} else {}
  {
    var r := Reduce(es, amount);
    if es[0].amount != amount {
      assert r[1..] == es[1..] && from + amount + r[0].amount == from + es[0].amount;
    }
  }

  lemma OneMoreCut(c: set<int>, d: set<int>, at: int, inC: bool, inD: bool)
    requires at !in c && at !in d && (inC || inD)
    ensures |(c + if inC then {at} else {}) + (d + if inD then {at} else {})| == |c + d| + 1
  {
    assert (c + if inC then {at} else {}) + (d + if inD then {at} else {}) == (c + d) + {at};
  }

  lemma CutStep(cs: seq<Entry>, ds: seq<Entry>, from: int)
    requires cs != [] && ds != [] && Positive(cs) && Positive(ds)
    ensures var amount := Min(cs[0].amount, ds[0].amount);
            && Positive(Reduce(cs, amount)) && Positive(Reduce(ds, amount))
            && |Cuts(cs, from) + Cuts(ds, from)|
               == |Cuts(Reduce(cs, amount), from + amount) + Cuts(Reduce(ds, amount), from + amount)| + 1
  {
    hide Cuts;
    var amount := Min(cs[0].amount, ds[0].amount);
    var cs', ds', at := Reduce(cs, amount), Reduce(ds, amount), from + amount;
    CutsReduce(cs, from, amount);
    CutsReduce(ds, from, amount);
    ReducePositive(cs, amount);
    ReducePositive(ds, amount);
    hide Reduce;
    CutsAbove(cs', at);
    CutsAbove(ds', at);
    OneMoreCut(Cuts(cs', at), Cuts(ds', at), at, cs[0].amount == amount, ds[0].amount == amount);
  }

  lemma {:induction false} WalkStep(cs: seq<Entry>, ds: seq<Entry>)
    requires cs != [] && ds != []
    ensures var amount := Min(cs[0].amount, ds[0].amount);
            && |Settle(cs, ds)| == 1 + |Settle(Reduce(cs, amount), Reduce(ds, amount))|
            && |Reduce(cs, amount)| + |Reduce(ds, amount)| < |cs| + |ds|
  {
  }

  /** Each edge of the walk ends at a partial sum of the credits or of the debts. */
  lemma {:induction false} EdgesAreCuts(cs: seq<Entry>, ds: seq<Entry>, from: int)
    requires Positive(cs) && Positive(ds) && SumOf(cs) == SumOf(ds)
    ensures |Settle(cs, ds)| == |Cuts(cs, from) + Cuts(ds, from)|
    decreases |cs| + |ds|
  {
    if cs != [] && ds != [] {
      hide *;
      var amount := Min(cs[0].amount, ds[0].amount);
      WalkStep(cs, ds);
      ReduceOwed(cs, amount, 0);
      ReduceOwed(ds, amount, 0);
      CutStep(cs, ds, from);
      EdgesAreCuts(Reduce(cs, amount), Reduce(ds, amount), from + amount);
    } else {
      hide *;
      PositiveSum(cs);
      PositiveSum(ds);
      NothingLeft(from);
    }
  }

  lemma {:induction false} NothingLeft(from: int)
    ensures Settle([], []) == [] && Cuts([], from) + Cuts([], from) == {}
  {
  }

  /** Partial sums the credits, largest first, share with the debts, largest first. */
  function Ties(balances: seq<Balance>): set<int> {
    Cuts(SortBy(Creditors(balances), Before()), 0) * Cuts(SortBy(Debtors(balances), Before()), 0)
  }

  lemma {:induction false} SortedSides(balances: seq<Balance>)
    ensures var cs, ds := SortBy(Creditors(balances), Before()), SortBy(Debtors(balances), Before());
            && Positive(cs) && |cs| == |Creditors(balances)| && Positive(ds) && |ds| == |Debtors(balances)|
            && SumOf(cs) - SumOf(ds) == Sum(Amounts(BalanceItems(balances)))
  {
    SortedStaysPositive(Creditors(balances));
    SortedStaysPositive(Debtors(balances));
    SortKeepsOwed(Creditors(balances), 0);
    SortKeepsOwed(Debtors(balances), 0);
    SameLength(SortBy(Creditors(balances), Before()), Creditors(balances));
    SameLength(SortBy(Debtors(balances), Before()), Debtors(balances));
    SidesMakeBalance(balances, 0);
    hide *;
  }

  lemma SameLength(s: seq<Entry>, t: seq<Entry>)
    requires multiset(s) == multiset(t)
    ensures |s| == |t|
  {
    assert |s| == |multiset(s)| && |t| == |multiset(t)|;
  }

  lemma UnionSize(a: set<int>, b: set<int>)
    ensures |a + b| + |a * b| == |a| + |b|
  {
  }

  /** In a zero-sum group Simplify returns one edge per unsettled user less one per tie. */
  lemma SimplifiedLength(balances: seq<Balance>)
    requires DistinctUsers(balances) && Sum(Amounts(BalanceItems(balances))) == 0
    ensures |Simplified(balances)| + |Ties(balances)| == |Unsettled(balances)|
  {
    var cs, ds := SortBy(Creditors(balances), Before()), SortBy(Debtors(balances), Before());
    assert Simplified(balances) == Settle(cs, ds) && Ties(balances) == Cuts(cs, 0) * Cuts(ds, 0);
    hide *;
    SortedSides(balances);
    EdgesAreCuts(cs, ds, 0);
    CutsAbove(cs, 0);
    CutsAbove(ds, 0);
    UnsettledCount(balances);
    UnionSize(Cuts(cs, 0), Cuts(ds, 0));
  }

  lemma SimplifiedClears(balances: seq<Balance>)
    requires Sum(Amounts(BalanceItems(balances))) == 0
    ensures Clears(balances, Simplified(balances))
  {
    forall u
      ensures Residual(balances, Simplified(balances), u) == 0
    {
      SimplifySettles(balances, u);
    }
  }

  /** The result clears the balances, and is minimal, as its documentation says, if and only if no
      split of the balances into zero-sum blocks has more blocks than there are ties. */
  lemma MinimalIff(balances: seq<Balance>)
    requires DistinctUsers(balances) && Sum(Amounts(BalanceItems(balances))) == 0
    ensures Clears(balances, Simplified(balances))
    ensures Minimal(balances, Simplified(balances))
       <==> forall block :: ZeroSumBlocks(balances, block) ==> |Blocks(balances, block)| <= |Ties(balances)|
  {
    hide *;
    SimplifiedLength(balances);
    SimplifiedClears(balances);
    if Minimal(balances, Simplified(balances)) {
      forall block | ZeroSumBlocks(balances, block)
        ensures |Blocks(balances, block)| <= |Ties(balances)|
      {
        var debts := SplitClears(balances, block);
        MinimalMeans(balances, Simplified(balances), debts);
      }
    }
    if forall block :: ZeroSumBlocks(balances, block) ==> |Blocks(balances, block)| <= |Ties(balances)| {
      forall other | Clears(balances, other)
        ensures |Simplified(balances)| <= |other|
      {
        var block := ClearingSplits(balances, other);
      }
      MinimalFrom(balances, Simplified(balances));
    }
  }

  lemma MinimalMeans(balances: seq<Balance>, debts: seq<Debt>, other: seq<Debt>)
    requires Minimal(balances, debts) && Clears(balances, other)
    ensures |debts| <= |other|
  {
  }

  lemma MinimalFrom(balances: seq<Balance>, debts: seq<Debt>)
    requires forall other :: Clears(balances, other) ==> |debts| <= |other|
    ensures Minimal(balances, debts)
  {
  }

  // ----- a group that is not settled minimally

  const FIVE_USERS: seq<Balance> := [Balance(1, 5), Balance(2, 3), Balance(3, 3), Balance(4, -6), Balance(5, -5)]
  const THREE_EDGES: seq<Debt> := [Debt(5, 1, 5), Debt(4, 2, 3), Debt(4, 3, 3)]

  /** Balances +5, +3, +3, -6, -5: Simplify returns four edges where three clear the group. */
  lemma NotMinimal()
    ensures |Simplified(FIVE_USERS)| == 4
    ensures Clears(FIVE_USERS, THREE_EDGES)
    ensures !Minimal(FIVE_USERS, Simplified(FIVE_USERS))
  {
    FourEdges();
    forall u
      ensures Residual(FIVE_USERS, THREE_EDGES, u) == 0
    {
      FiveBalances(u);
      ThreeTransfers(u);
      hide *;
      ResidualIs(FIVE_USERS, THREE_EDGES, u);
    }
    hide *;
    if Minimal(FIVE_USERS, Simplified(FIVE_USERS)) {
      MinimalMeans(FIVE_USERS, Simplified(FIVE_USERS), THREE_EDGES);
    }
  }

  const CREDITS: seq<Entry> := [Entry(1, 5), Entry(2, 3), Entry(3, 3)]
  const DEBTS: seq<Entry> := [Entry(4, 6), Entry(5, 5)]

  lemma FiveSides()
    ensures Creditors(FIVE_USERS) == CREDITS && Debtors(FIVE_USERS) == DEBTS
  {
    var b := FIVE_USERS;
    var b1, b2, b3, b4 := [Balance(1, 5)], [Balance(1, 5), Balance(2, 3)], b[..3], b[..4];
    assert b4[..3] == b3 && b3[..2] == b2 && b2[..1] == b1 && b1[..0] == [];
    assert Creditors(b1) == [Entry(1, 5)] && Debtors(b1) == [];
    assert Creditors(b2) == [Entry(1, 5), Entry(2, 3)] && Debtors(b2) == [];
    assert Creditors(b3) == CREDITS && Debtors(b3) == [];
    assert Creditors(b4) == CREDITS && Debtors(b4) == [Entry(4, 6)];
  }

  lemma FourEdges()
    ensures |Simplified(FIVE_USERS)| == 4
  {
    hide *;
    FiveSides();
    FiveSorted();
    FourSteps();
    InOrder(FIVE_USERS, CREDITS, DEBTS);
  }

  lemma FiveSorted()
    ensures SortBy(CREDITS, Before()) == CREDITS && SortBy(DEBTS, Before()) == DEBTS
  {
    hide SortBy;
    Already(CREDITS);
    Already(DEBTS);
  }

  lemma {:induction false} InOrder(balances: seq<Balance>, cs: seq<Entry>, ds: seq<Entry>)
    requires Creditors(balances) == cs == SortBy(cs, Before()) && Debtors(balances) == ds == SortBy(ds, Before())
    ensures Simplified(balances) == Settle(cs, ds)
  {
    hide Settle;
    hide SortBy;
    hide Creditors;
    hide Debtors;
  }

  lemma FourSteps()
    ensures |Settle(CREDITS, DEBTS)| == 4
  {
    var cs, ds := [Entry(3, 3)], [Entry(5, 3)];
    assert Reduce(cs, 3) == [] && Reduce(ds, 3) == [];
    hide Reduce;
    WalkStep(cs, ds);
    EdgeCount([], []);
    hide Settle;
    ThreeSteps();
  }

  lemma ThreeSteps()
    ensures |Settle(CREDITS, DEBTS)| == 3 + |Settle([Entry(3, 3)], [Entry(5, 3)])|
  {
    var c1, d1 := [Entry(2, 3), Entry(3, 3)], [Entry(4, 1), Entry(5, 5)];
    var c2, d2 := [Entry(2, 2), Entry(3, 3)], [Entry(5, 5)];
    assert Reduce(CREDITS, 5) == c1 && Reduce(DEBTS, 5) == d1;
    assert Reduce(c1, 1) == c2 && Reduce(d1, 1) == d2;
    assert Reduce(c2, 2) == [Entry(3, 3)] && Reduce(d2, 2) == [Entry(5, 3)];
    hide Reduce;
    hide Settle;
    WalkStep(CREDITS, DEBTS);
    WalkStep(c1, d1);
    WalkStep(c2, d2);
  }

  lemma FiveBalances(u: UserId)
    ensures BalanceOf(FIVE_USERS, u)
         == if u == 1 then 5 else if u == 2 || u == 3 then 3 else if u == 4 then -6 else if u == 5 then -5 else 0
  {
    var items := BalanceItems(FIVE_USERS);
    assert items == [] + [Item(1, 5)] + [Item(2, 3)] + [Item(3, 3)] + [Item(4, -6)] + [Item(5, -5)];
    TotalSnoc([], Item(1, 5), u);
    TotalSnoc([] + [Item(1, 5)], Item(2, 3), u);
    TotalSnoc([] + [Item(1, 5)] + [Item(2, 3)], Item(3, 3), u);
    TotalSnoc([] + [Item(1, 5)] + [Item(2, 3)] + [Item(3, 3)], Item(4, -6), u);
    TotalSnoc([] + [Item(1, 5)] + [Item(2, 3)] + [Item(3, 3)] + [Item(4, -6)], Item(5, -5), u);
  }

  lemma {:induction false} ThreeTransfers(u: UserId)
    ensures Total(TransferItems(THREE_EDGES), u)
         == if u == 1 then -5 else if u == 2 || u == 3 then -3 else if u == 4 then 6 else if u == 5 then 5 else 0
  {
    var e := THREE_EDGES;
    assert e == [e[0]] + ([e[1]] + ([e[2]] + []));
    TransferStep(e[0], [e[1]] + ([e[2]] + []), u);
    TransferStep(e[1], [e[2]] + [], u);
    TransferStep(e[2], [], u);
  }
}
