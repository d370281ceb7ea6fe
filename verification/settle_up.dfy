/** The debts endpoint on top of the ledger: recording the suggested edges as settlements
    (internal/balances/handlers.go GetDebts, internal/debts/simplify.go). */
module SettleUp {
  import opened Numbers
  import opened Grouping
  import opened Ledger
  import opened LedgerLaws
  import opened LedgerRuns
  import Filtering
  import Debts
  import DebtsLaws
  import DebtsInt64

  /** The balance map's entries, in some order. */
  ghost function Balances(g: Group, users: seq<nat>): (r: seq<Debts.Balance>)
    ensures |r| == |users|
  {
    seq(|users|, i requires 0 <= i < |users| => Debts.Balance(users[i], Displayed(g, users[i])))
  }

  /** The group once every edge is recorded as a settlement. */
  function Recorded(g: Group, debts: seq<Debts.Debt>): Group {
    g.(settlements := g.settlements + Settlements(debts))
  }

  function Settlements(debts: seq<Debts.Debt>): (r: seq<Settlement>)
    ensures |r| == |debts|
  {
    seq(|debts|, i requires 0 <= i < |debts| => Settlement(debts[i].from, debts[i].to, debts[i].amount, false))
  }

  lemma {:induction false} RecordingAdds(g: Group, debts: seq<Debts.Debt>, u: nat)
    ensures Net(Recorded(g, debts), u) == Net(g, u) + Total(DebtsLaws.TransferItems(debts), u)
    decreases |debts|
  {
    if debts == [] {
      assert g.settlements + Settlements(debts) == g.settlements;
    } else {
      var d, rest := debts[0], debts[1..];
      var s := Settlement(d.from, d.to, d.amount, false);
      var g' := g.(settlements := g.settlements + [s]);
      RecordingAdds(g', rest, u);
      assert g'.settlements + Settlements(rest) == g.settlements + Settlements(debts);
      assert debts == [d] + rest;
      OneMore(g, s, u);
      DebtsLaws.TransferStep(d, rest, u);
      hide *;
    }
  }

  lemma OneMore(g: Group, s: Settlement, u: nat)
    requires !s.deleted
    ensures Net(g.(settlements := g.settlements + [s]), u)
         == Net(g, u) + (if s.from == u then s.amount else 0) - (if s.to == u then s.amount else 0)
  {
    assert (g.settlements + [s])[..|g.settlements|] == g.settlements;
    SettlementSnoc(LiveSettlements(g.settlements), s, u);
  }

  lemma BalanceIsDisplayed(g: Group, users: seq<nat>, u: nat)
    requires MapKeys(users, g)
    ensures DebtsLaws.DistinctUsers(Balances(g, users))
    ensures DebtsLaws.BalanceOf(Balances(g, users), u) == Displayed(g, u)
    ensures Amounts(DebtsLaws.BalanceItems(Balances(g, users))) == Displays(g, users)
  {
    var balances := Balances(g, users);
    hide InMap;
    hide Displayed;
    assert Amounts(DebtsLaws.BalanceItems(balances)) == Displays(g, users);
    if u in users {
      var i :| 0 <= i < |users| && users[i] == u;
      DebtsLaws.DistinctBalance(balances, i);
    } else {
      OutsideMap(g, u);
      TotalAbsent(DebtsLaws.BalanceItems(balances), u);
    }
  }

  lemma ReliableDisplay(g: Group, users: seq<nat>, u: nat)
    requires MapKeys(users, g) && Reliable(g)
    ensures Displayed(g, u) == Net(g, u) && Sum(Displays(g, users)) == TotalDrift(g.expenses)
  {
    ShowsLedgerIff(g);
    DisplaysSum(g, users);
  }

  lemma {:induction false} ResidualIs(balances: seq<Debts.Balance>, debts: seq<Debts.Debt>, u: nat)
    ensures DebtsLaws.Residual(balances, debts, u) == DebtsLaws.BalanceOf(balances, u) + Total(DebtsLaws.TransferItems(debts), u)
  {
  }

  // ----- who may be part of a settlement

  /** What the settlement endpoint accepts: a positive int64 between two different members. */
  predicate Accepts(g: Group, d: Debts.Debt) {
    d.from != d.to && 0 < d.amount < TWO_63 && d.from in g.members && d.to in g.members
  }

  predicate AllAccepted(g: Group, debts: seq<Debts.Debt>) {
    forall k | 0 <= k < |debts| :: Accepts(g, debts[k])
  }

  /** The edges that get through when all are submitted one after another. */
  function AcceptedEdges(g: Group, debts: seq<Debts.Debt>): (r: seq<Debts.Debt>)
    ensures |r| <= |debts|
    ensures AllAccepted(g, debts) ==> r == debts
    ensures forall d | d in r :: d in debts && Accepts(g, d)
  {
    if debts == [] then []
    else
      assert debts == [debts[0]] + debts[1..];
      (if Accepts(g, debts[0]) then [debts[0]] else []) + AcceptedEdges(g, debts[1..])
  }

  /** Every user who still owes or is owed is a member. */
  ghost predicate UnsettledAreMembers(g: Group) {
    forall u :: Net(g, u) != 0 ==> u in g.members
  }

  lemma {:induction false} NotEndpoint(debts: seq<Debts.Debt>, u: nat)
    requires forall d | d in debts :: d.from != u && d.to != u
    ensures u !in DebtsLaws.Endpoints(debts)
  {
    if debts != [] {
      assert debts[0] in debts;
      NotEndpoint(debts[1..], u);
    }
  }

  /** Someone who is no member is in no accepted edge and keeps the balance. */
  lemma {:induction false} UntouchedKeeps(g: Group, debts: seq<Debts.Debt>, u: nat)
    requires u !in g.members
    ensures Net(Recorded(g, AcceptedEdges(g, debts)), u) == Net(g, u)
  {
    var kept := AcceptedEdges(g, debts);
    hide Net;
    hide Recorded;
    NotEndpoint(kept, u);
    DebtsLaws.UntouchedUser(kept, u);
    RecordingAdds(g, kept, u);
  }

  // ----- the edges suggested

  /** What the debts endpoint returns. */
  ghost function Edges(g: Group, users: seq<nat>): seq<Debts.Debt> { Debts.Suggested(Balances(g, users)) }

  /** Nobody is shown the smallest int64, the one balance without a negation. */
  ghost predicate Negatable(g: Group) {
    forall u: nat :: Displayed(g, u) != -TWO_63
  }

  lemma BalancesInRange(g: Group, users: seq<nat>)
    ensures DebtsInt64.InRange(Balances(g, users))
  {
    hide Displayed;
  }

  lemma NegatableIff(g: Group, users: seq<nat>)
    requires MapKeys(users, g)
    ensures Negatable(g) <==> DebtsInt64.AllNegatable(Balances(g, users))
  {
    hide Displayed;
    hide InMap;
    if DebtsInt64.AllNegatable(Balances(g, users)) {
      forall u: nat
        ensures Displayed(g, u) != -TWO_63
      {
        if u in users {
          var i :| 0 <= i < |users| && users[i] == u;
          assert Balances(g, users)[i].amount == Displayed(g, u);
        } else {
          OutsideMap(g, u);
        }
      }
    }
  }

  /** The ordinary edges, between the users not shown the smallest int64. */
  ghost function Ordinary(g: Group, users: seq<nat>): seq<Debts.Debt> { Debts.Simplified(DebtsInt64.Others(Balances(g, users))) }

  /** Ordinary edges first, then edges of the smallest int64, which the endpoint refuses. */
  lemma EdgesSplit(g: Group, users: seq<nat>) returns (rest: seq<Debts.Debt>)
    requires MapKeys(users, g)
    ensures Edges(g, users) == Ordinary(g, users) + rest
    ensures forall k | 0 <= k < |rest| :: rest[k].amount == -TWO_63
    ensures Negatable(g) ==> rest == [] && Edges(g, users) == Debts.Simplified(Balances(g, users))
    ensures Sum(Displays(g, users)) == 0 ==> (rest == [] <==> Negatable(g))
  {
    BalancesInRange(g, users);
    NegatableIff(g, users);
    BalanceIsDisplayed(g, users, 0);
    hide Displayed;
    hide Displays;
    hide Balances;
    hide Debts.Suggested;
    hide Debts.Simplified;
    hide DebtsInt64.Others;
    hide Sum;
    hide MapKeys;
    hide Negatable;
    var balances := Balances(g, users);
    if Sum(Displays(g, users)) == 0 {
      rest := DebtsInt64.ZeroSumSplits(balances);
    } else {
      rest := DebtsInt64.SuggestedSplits(balances);
    }
    if Negatable(g) {
      DebtsInt64.NothingStuck(balances);
    }
  }

  /** The ordinary edges, in terms of the balances shown. */
  lemma OrdinaryEdge(g: Group, users: seq<nat>, k: nat)
    requires MapKeys(users, g) && k < |Ordinary(g, users)|
    ensures var d := Ordinary(g, users)[k];
            0 < d.amount < TWO_63 && -TWO_63 < Displayed(g, d.from) < 0 < Displayed(g, d.to)
  {
    var balances, others := Balances(g, users), DebtsInt64.Others(Balances(g, users));
    var d := Ordinary(g, users)[k];
    BalanceIsDisplayed(g, users, d.from);
    BalanceIsDisplayed(g, users, d.to);
    BalancesInRange(g, users);
    Filtering.FilterKept(DebtsInt64.Negatable(), balances);
    hide Balances;
    hide Displayed;
    hide MapKeys;
    hide Filtering.Filter;
    hide Debts.Simplified;
    hide DebtsLaws.BalanceOf;
    DebtsInt64.OthersDistinct(balances);
    DebtsInt64.OthersBalance(balances, d.from);
    DebtsInt64.OthersBalance(balances, d.to);
    DebtsLaws.EdgeSigns(others, k);
    forall i | 0 <= i < |others|
      ensures others[i].amount <= TWO_63 - 1
    {
      assert others[i] in balances;
      var j :| 0 <= j < |balances| && balances[j] == others[i];
    }
    DebtsLaws.SimplifyEdges(others, TWO_63 - 1);
    assert DebtsLaws.EdgeBetween(d, DebtsLaws.Ids(Debts.Debtors(others)), DebtsLaws.Ids(Debts.Creditors(others)), TWO_63 - 1);
  }

  lemma {:induction false} RefusedTail(g: Group, debts: seq<Debts.Debt>, rest: seq<Debts.Debt>)
    requires forall k | 0 <= k < |rest| :: rest[k].amount == -TWO_63
    ensures AcceptedEdges(g, debts + rest) == AcceptedEdges(g, debts)
    ensures AllAccepted(g, debts + rest) <==> AllAccepted(g, debts) && rest == []
  {
    if debts == [] {
      assert debts + rest == rest;
      NoneAccepted(g, rest);
      assert rest != [] ==> !Accepts(g, rest[0]);
    } else {
      assert debts + rest == [debts[0]] + (debts[1..] + rest);
      RefusedTail(g, debts[1..], rest);
      AllAcceptedCons(g, debts[0], debts[1..]);
      AllAcceptedCons(g, debts[0], debts[1..] + rest);
      assert debts == [debts[0]] + debts[1..];
      hide Accepts;
      hide AllAccepted;
    }
  }

  lemma AllAcceptedCons(g: Group, d: Debts.Debt, debts: seq<Debts.Debt>)
    ensures AllAccepted(g, [d] + debts) <==> Accepts(g, d) && AllAccepted(g, debts)
  {
    hide Accepts;
    if AllAccepted(g, [d] + debts) {
      assert Accepts(g, ([d] + debts)[0]);
      forall k | 0 <= k < |debts|
        ensures Accepts(g, debts[k])
      {
        assert Accepts(g, ([d] + debts)[k + 1]);
      }
    }
  }

  lemma {:induction false} NoneAccepted(g: Group, rest: seq<Debts.Debt>)
    requires forall k | 0 <= k < |rest| :: rest[k].amount == -TWO_63
    ensures AcceptedEdges(g, rest) == []
  {
    if rest != [] {
      NoneAccepted(g, rest[1..]);
    }
  }

  /** What gets through, and whether everything does. */
  lemma {:induction false} EdgesAccepted(g: Group, users: seq<nat>)
    requires MapKeys(users, g)
    ensures AcceptedEdges(g, Edges(g, users)) == AcceptedEdges(g, Ordinary(g, users))
    ensures Negatable(g) ==> Edges(g, users) == Ordinary(g, users)
    ensures Sum(Displays(g, users)) == 0 ==> (AllAccepted(g, Edges(g, users)) <==> AllAccepted(g, Ordinary(g, users)) && Negatable(g))
  {
    hide *;
    var rest := EdgesSplit(g, users);
    RefusedTail(g, Ordinary(g, users), rest);
  }

  // ----- when submitting them clears the group

  lemma DisplaysSumIs(g: Group, users: seq<nat>)
    requires MapKeys(users, g) && Reliable(g)
    ensures Sum(Displays(g, users)) == TotalDrift(g.expenses)
  {
    DisplaysSum(g, users);
  }

  /** What is left of a balance once every edge is recorded: what Simplify leaves over, and what
      the map gets wrong. */
  lemma RecordedNet(g: Group, users: seq<nat>, u: nat)
    requires MapKeys(users, g)
    ensures Net(Recorded(g, Edges(g, users)), u)
         == DebtsLaws.Residual(Balances(g, users), Edges(g, users), u) + Net(g, u) - Displayed(g, u)
  {
    BalanceIsDisplayed(g, users, u);
    hide *;
    RecordingAdds(g, Edges(g, users), u);
    ResidualIs(Balances(g, users), Edges(g, users), u);
  }

  lemma RecordedGap(g: Group, users: seq<nat>, u: nat)
    requires MapKeys(users, g) && Sum(Displays(g, users)) == 0 && Negatable(g)
    ensures Net(Recorded(g, Edges(g, users)), u) == Net(g, u) - Displayed(g, u)
  {
    hide *;
    RecordedNet(g, users, u);
    BalanceIsDisplayed(g, users, u);
    var rest := EdgesSplit(g, users);
    DebtsLaws.SimplifySettles(Balances(g, users), u);
  }

  /** When the balances shown sum to zero and each has a negation, recording every edge clears the
      group if and only if the map is reliable. */
  lemma RecordingClearsIff(g: Group, users: seq<nat>)
    requires MapKeys(users, g) && Sum(Displays(g, users)) == 0 && Negatable(g)
    ensures (forall u :: Net(Recorded(g, Edges(g, users)), u) == 0) <==> Reliable(g)
  {
    var after := Recorded(g, Edges(g, users));
    hide Recorded;
    hide Net;
    hide Displayed;
    hide MapKeys;
    hide Reliable;
    hide Negatable;
    hide Sum;
    hide Edges;
    ShowsLedgerIff(g);
    forall u: nat
      ensures Net(after, u) == 0 <==> Displayed(g, u) == Net(g, u)
    {
      RecordedGap(g, users, u);
    }
  }

  lemma ReliableEdge(g: Group, users: seq<nat>, k: nat)
    requires MapKeys(users, g) && Reliable(g) && k < |Ordinary(g, users)|
    ensures var d := Ordinary(g, users)[k];
            0 < d.amount < TWO_63 && -TWO_63 < Net(g, d.from) < 0 < Net(g, d.to)
  {
    hide *;
    OrdinaryEdge(g, users, k);
    ReliableDisplay(g, users, Ordinary(g, users)[k].from);
    ReliableDisplay(g, users, Ordinary(g, users)[k].to);
  }

  /** Where everyone with a balance is a member, the endpoint accepts the ordinary edges. */
  lemma OrdinaryAccepted(g: Group, users: seq<nat>)
    requires MapKeys(users, g) && Reliable(g) && UnsettledAreMembers(g)
    ensures AllAccepted(g, Ordinary(g, users))
  {
    var debts := Ordinary(g, users);
    hide Net;
    hide MapKeys;
    hide Reliable;
    hide Ordinary;
    forall k | 0 <= k < |debts|
      ensures Accepts(g, debts[k])
    {
      ReliableEdge(g, users, k);
    }
  }

  /** In a reliable group whose balances sum to zero, the settlement endpoint accepts every
      suggested edge if and only if every balance has a negation and everyone with a balance is a
      member. */
  lemma EdgesAcceptedIff(g: Group, users: seq<nat>)
    requires MapKeys(users, g) && Reliable(g) && TotalDrift(g.expenses) == 0
    ensures AllAccepted(g, Edges(g, users)) <==> Negatable(g) && UnsettledAreMembers(g)
  {
    DisplaysSumIs(g, users);
    EdgesAccepted(g, users);
    if UnsettledAreMembers(g) { OrdinaryAccepted(g, users); }
    if Negatable(g) { RecordingClearsIff(g, users); }
    hide Net;
    hide MapKeys;
    hide Reliable;
    hide Edges;
    hide Ordinary;
    hide Recorded;
    hide TotalDrift;
    hide Negatable;
    hide Displays;
    if AllAccepted(g, Edges(g, users)) {
      forall u | Net(g, u) != 0
        ensures u in g.members
      {
        if u !in g.members { UntouchedKeeps(g, Edges(g, users), u); }
      }
    }
  }

  /** Who is shown the smallest int64 keeps that balance, whatever is submitted. */
  lemma {:induction false} StuckKeeps(g: Group, users: seq<nat>, u: nat)
    requires MapKeys(users, g) && Displayed(g, u) == -TWO_63
    ensures Net(Recorded(g, AcceptedEdges(g, Edges(g, users))), u) == Net(g, u)
  {
    EdgesAccepted(g, users);
    var kept := AcceptedEdges(g, Ordinary(g, users));
    hide Net;
    hide Recorded;
    hide Edges;
    hide Displayed;
    hide MapKeys;
    hide Accepts;
    hide Ordinary;
    forall d | d in kept
      ensures d.from != u && d.to != u
    {
      assert d in Ordinary(g, users);
      var k :| 0 <= k < |Ordinary(g, users)| && Ordinary(g, users)[k] == d;
      OrdinaryEdge(g, users, k);
    }
    NotEndpoint(kept, u);
    DebtsLaws.UntouchedUser(kept, u);
    RecordingAdds(g, kept, u);
  }

  /** Submitting the suggested edges one after another, those refused left out, clears such a group
      under the same conditions. */
  lemma {:induction false} SubmittingClearsIff(g: Group, users: seq<nat>)
    requires MapKeys(users, g) && Reliable(g) && TotalDrift(g.expenses) == 0
    ensures (forall u :: Net(Recorded(g, AcceptedEdges(g, Edges(g, users))), u) == 0) <==> Negatable(g) && UnsettledAreMembers(g)
  {
    EdgesAcceptedIff(g, users);
    DisplaysSumIs(g, users);
    var debts := Edges(g, users);
    hide Net;
    hide MapKeys;
    hide Reliable;
    hide Edges;
    hide Recorded;
    hide TotalDrift;
    hide Displays;
    hide Displayed;
    if Negatable(g) && UnsettledAreMembers(g) {
      RecordingClearsIff(g, users);
    } else if !Negatable(g) {
      var u: nat :| Displayed(g, u) == -TWO_63;
      StuckKeeps(g, users, u);
      ReliableDisplay(g, users, u);
    } else {
      var u :| Net(g, u) != 0 && u !in g.members;
      UntouchedKeeps(g, debts, u);
    }
  }

  /** When the balances shown sum to zero, all edges are accepted and clear the group if and only if
      the map is reliable, every balance has a negation and everyone with a balance is a member. */
  lemma AcceptedAndClearsIff(g: Group, users: seq<nat>)
    requires MapKeys(users, g) && Sum(Displays(g, users)) == 0
    ensures AllAccepted(g, Edges(g, users)) && (forall u :: Net(Recorded(g, Edges(g, users)), u) == 0)
       <==> Reliable(g) && Negatable(g) && UnsettledAreMembers(g)
  {
    EdgesAccepted(g, users);
    hide Net;
    hide MapKeys;
    hide Edges;
    hide Ordinary;
    hide Recorded;
    hide Sum;
    hide Displays;
    hide AllAccepted;
    hide Reliable;
    hide Negatable;
    hide UnsettledAreMembers;
    if Negatable(g) {
      RecordingClearsIff(g, users);
      if Reliable(g) {
        DisplaysSumIs(g, users);
        EdgesAcceptedIff(g, users);
      }
    }
  }

  // ----- the same as changes of a run

  /** The states while the edges are recorded. */
  function Recording(g: Group, debts: seq<Debts.Debt>): (r: seq<Group>)
    ensures |r| == |debts|
  {
    seq(|debts|, i requires 0 <= i < |debts| => Recorded(g, debts[..i + 1]))
  }

  function Settles(debts: seq<Debts.Debt>): (r: seq<Change>)
    ensures |r| == |debts|
  {
    seq(|debts|, i requires 0 <= i < |debts| => Settle(debts[i].from, debts[i].to, debts[i].amount))
  }

  lemma RecordedStep(g: Group, debts: seq<Debts.Debt>, i: nat, hash: string -> nat)
    requires i < |debts|
    ensures Step(Recorded(g, debts[..i]), Settle(debts[i].from, debts[i].to, debts[i].amount), Recorded(g, debts[..i + 1]), hash)
       <==> Accepts(g, debts[i])
  {
    var d := debts[i];
    assert Settlements(debts[..i + 1]) == Settlements(debts[..i]) + [Settlement(d.from, d.to, d.amount, false)];
    assert Recorded(g, debts[..i + 1]).settlements
        == Recorded(g, debts[..i]).settlements + [Settlement(d.from, d.to, d.amount, false)];
  }

  lemma RunSnoc(states: seq<Group>, changes: seq<Change>, hash: string -> nat, c: Change, g': Group)
    requires |states| == |changes| + 1
    ensures Run(states + [g'], changes + [c], hash) <==> Run(states, changes, hash) && Step(states[|changes|], c, g', hash)
  {
    hide Step;
    var all, done, n := states + [g'], changes + [c], |changes|;
    if Run(all, done, hash) {
      forall k | 0 <= k < n
        ensures Step(states[k], changes[k], states[k + 1], hash)
      {
        assert Step(all[k], done[k], all[k + 1], hash);
      }
      assert Step(all[n], done[n], all[n + 1], hash);
    }
    if Run(states, changes, hash) && Step(states[n], c, g', hash) {
      forall k | 0 <= k < n + 1
        ensures Step(all[k], done[k], all[k + 1], hash)
      {
        if k < n { assert Step(states[k], changes[k], states[k + 1], hash); }
      }
    }
  }

  /** Appending the edges to a run gives a run if and only if each of them is accepted. */
  lemma {:induction false} RunWithEdges(states: seq<Group>, changes: seq<Change>, hash: string -> nat, debts: seq<Debts.Debt>)
    requires Run(states, changes, hash)
    ensures Run(states + Recording(states[|changes|], debts), changes + Settles(debts), hash)
       <==> AllAccepted(states[|changes|], debts)
    decreases |debts|
  {
    var g := states[|changes|];
    hide Step;
    hide Accepts;
    hide Run;
    if debts == [] {
      assert states + Recording(g, debts) == states && changes + Settles(debts) == changes;
    } else {
      var m := |debts| - 1;
      var front, d := debts[..m], debts[m];
      RunWithEdges(states, changes, hash, front);
      RecordedStep(g, debts, m, hash);
      EdgesSnoc(states, changes, g, debts);
      RunSnoc(states + Recording(g, front), changes + Settles(front), hash, Settle(d.from, d.to, d.amount), Recorded(g, debts));
      assert AllAccepted(g, debts) <==> AllAccepted(g, front) && Accepts(g, d);
    }
  }

  lemma EdgesSnoc(states: seq<Group>, changes: seq<Change>, g: Group, debts: seq<Debts.Debt>)
    requires debts != [] && |states| == |changes| + 1 && states[|changes|] == g
    ensures var m := |debts| - 1;
            && states + Recording(g, debts) == (states + Recording(g, debts[..m])) + [Recorded(g, debts)]
            && changes + Settles(debts) == (changes + Settles(debts[..m])) + [Settle(debts[m].from, debts[m].to, debts[m].amount)]
            && (states + Recording(g, debts[..m]))[|changes| + m] == Recorded(g, debts[..m])
            && debts[..m + 1] == debts
  {
    var m := |debts| - 1;
    var front := debts[..m];
    assert debts[..m + 1] == debts;
    assert Settlements([]) == [] && g.settlements + [] == g.settlements;
    assert Recorded(g, []) == g;
    hide Recorded;
    forall i | 0 <= i < m
      ensures Recording(g, debts)[i] == Recording(g, front)[i]
    {
      assert debts[..i + 1] == front[..i + 1];
    }
    assert Recording(g, debts) == Recording(g, front) + [Recorded(g, debts)];
    if m > 0 { assert front[..m] == front; } else { assert front == []; }
  }

  /** After any balanced run without live exchange rates: when the map shows balances that sum to
      zero, the edges the debts endpoint returns are all accepted and clear every balance if and
      only if the map is reliable, every balance has a negation and everyone with a balance is a
      member. A reliable map's do sum to zero, and then recording the edges continues the run, and
      submitting them clears the group, under the other two conditions. */
  lemma SettlingUpClearsTheGroup(states: seq<Group>, changes: seq<Change>, hash: string -> nat, users: seq<nat>)
    requires Run(states, changes, hash) && AllBalanced(changes) && MapKeys(users, states[|changes|])
    requires Unrated(states[|changes|].expenses)
    ensures var g := states[|changes|];
            Sum(Displays(g, users)) == 0 ==>
              (AllAccepted(g, Edges(g, users)) && (forall u :: Net(Recorded(g, Edges(g, users)), u) == 0)
               <==> Reliable(g) && Negatable(g) && UnsettledAreMembers(g))
    ensures var g := states[|changes|];
            Reliable(g) ==>
              && Sum(Displays(g, users)) == 0
              && (Run(states + Recording(g, Edges(g, users)), changes + Settles(Edges(g, users)), hash)
                  <==> Negatable(g) && UnsettledAreMembers(g))
              && ((forall u :: Net(Recorded(g, AcceptedEdges(g, Edges(g, users))), u) == 0)
                  <==> Negatable(g) && UnsettledAreMembers(g))
  {
    var g := states[|changes|];
    BalancesSumToZero(states, changes, hash, users);
    hide *;
    if Sum(Displays(g, users)) == 0 { AcceptedAndClearsIff(g, users); }
    if Reliable(g) {
      EdgesAcceptedIff(g, users);
      SubmittingClearsIff(g, users);
      RunWithEdges(states, changes, hash, Edges(g, users));
    }
  }

  // ----- nobody overpays

  predicate Pays(debts: seq<Debts.Debt>, u: nat) { exists k | 0 <= k < |debts| :: debts[k].from == u }

  predicate IsPaid(debts: seq<Debts.Debt>, u: nat) { exists k | 0 <= k < |debts| :: debts[k].to == u }

  /** The accepted edges change a balance in the same direction as all of them, and no further. */
  lemma {:induction false} PartOfTransfers(g: Group, debts: seq<Debts.Debt>, u: nat)
    requires forall k | 0 <= k < |debts| :: debts[k].amount > 0
    ensures !Pays(debts, u) ==>
              Total(DebtsLaws.TransferItems(debts), u) <= Total(DebtsLaws.TransferItems(AcceptedEdges(g, debts)), u) <= 0
    ensures !IsPaid(debts, u) ==>
              0 <= Total(DebtsLaws.TransferItems(AcceptedEdges(g, debts)), u) <= Total(DebtsLaws.TransferItems(debts), u)
  {
    if debts != [] {
      var d, rest := debts[0], debts[1..];
      forall k | 0 <= k < |rest|
        ensures rest[k].amount > 0
        ensures (rest[k].from == u ==> Pays(debts, u)) && (rest[k].to == u ==> IsPaid(debts, u))
      {
        assert rest[k] == debts[k + 1];
      }
      assert (d.from == u ==> Pays(debts, u)) && (d.to == u ==> IsPaid(debts, u));
      PartOfTransfers(g, rest, u);
      DebtsLaws.TransferStep(d, rest, u);
      DebtsLaws.TransferStep(d, AcceptedEdges(g, rest), u);
      assert debts == [d] + rest;
      hide Total;
      hide Accepts;
      assert AcceptedEdges(g, debts) == [d] + AcceptedEdges(g, rest) || AcceptedEdges(g, debts) == AcceptedEdges(g, rest);
    }
  }

  /** Who is owed pays no edge, and who owes receives none. */
  lemma EdgeSides(g: Group, users: seq<nat>, u: nat)
    requires MapKeys(users, g)
    ensures var debts := Ordinary(g, users);
            && (forall k | 0 <= k < |debts| :: debts[k].amount > 0)
            && (Displayed(g, u) >= 0 ==> !Pays(debts, u))
            && (Displayed(g, u) <= 0 ==> !IsPaid(debts, u))
  {
    var debts := Ordinary(g, users);
    hide Displayed;
    hide Ordinary;
    hide MapKeys;
    forall k | 0 <= k < |debts|
      ensures debts[k].amount > 0
      ensures Displayed(g, u) >= 0 ==> debts[k].from != u
      ensures Displayed(g, u) <= 0 ==> debts[k].to != u
    {
      OrdinaryEdge(g, users, k);
    }
  }

  lemma {:induction false} ResidualWithin(balances: seq<Debts.Balance>, u: nat, shown: int)
    requires DebtsLaws.DistinctUsers(balances) && DebtsLaws.BalanceOf(balances, u) == shown
    ensures var all := Total(DebtsLaws.TransferItems(Debts.Simplified(balances)), u);
            if shown >= 0 then -shown <= all <= 0 else 0 <= all <= -shown
  {
    hide *;
    DebtsLaws.NobodyOverpays(balances, u);
    ResidualIs(balances, Debts.Simplified(balances), u);
  }

  lemma {:induction false} OrdinaryWithin(g: Group, users: seq<nat>, u: nat, shown: int)
    requires MapKeys(users, g) && shown == Displayed(g, u)
    ensures var all := Total(DebtsLaws.TransferItems(Ordinary(g, users)), u);
            if shown >= 0 then -shown <= all <= 0 else 0 <= all <= -shown
  {
    var balances := Balances(g, users);
    BalanceIsDisplayed(g, users, u);
    hide Balances;
    hide Displayed;
    hide MapKeys;
    hide Total;
    hide Debts.Simplified;
    hide DebtsInt64.Others;
    hide DebtsLaws.BalanceOf;
    DebtsInt64.OthersDistinct(balances);
    DebtsInt64.OthersBalance(balances, u);
    ResidualWithin(DebtsInt64.Others(balances), u, if shown == -TWO_63 then 0 else shown);
  }

  lemma {:induction false} RecordedChanges(g: Group, users: seq<nat>, u: nat, shown: int)
    requires MapKeys(users, g) && shown == Displayed(g, u)
    ensures var debts := Ordinary(g, users);
            var paid, all := Total(DebtsLaws.TransferItems(AcceptedEdges(g, debts)), u), Total(DebtsLaws.TransferItems(debts), u);
            if shown >= 0 then -shown <= all <= paid <= 0 else 0 <= paid <= all <= -shown
  {
    hide *;
    EdgeSides(g, users, u);
    PartOfTransfers(g, Ordinary(g, users), u);
    OrdinaryWithin(g, users, u, shown);
  }

  /** In any group, rated expenses or not, reliable or not and with edges refused or not, submitting
      the suggested edges moves nobody past the balance shown. In a reliable group whose balances
      have negations nobody moves past zero even if all edges are recorded, and what is then left is
      on one side only. */
  lemma {:induction false} SettlingUpOverpaysNobody(g: Group, users: seq<nat>, u: nat)
    requires MapKeys(users, g)
    ensures var shown, before, after := Displayed(g, u), Net(g, u), Net(Recorded(g, AcceptedEdges(g, Edges(g, users))), u);
            if shown >= 0 then before - shown <= after <= before else before <= after <= before - shown
    ensures var before, after := Net(g, u), Net(Recorded(g, AcceptedEdges(g, Edges(g, users))), u);
            var all := Net(Recorded(g, Edges(g, users)), u);
            Reliable(g) && Negatable(g) ==>
              && (if before >= 0 then 0 <= all <= after else after <= all <= 0)
              && (TotalDrift(g.expenses) >= 0 ==> all >= 0)
              && (TotalDrift(g.expenses) <= 0 ==> all <= 0)
  {
    hide *;
    EdgesAccepted(g, users);
    RecordedChanges(g, users, u, Displayed(g, u));
    RecordingAdds(g, AcceptedEdges(g, Ordinary(g, users)), u);
    if Reliable(g) && Negatable(g) {
      RecordingAdds(g, Ordinary(g, users), u);
      ReliableDisplay(g, users, u);
      AllRecordedSide(g, users, u);
    }
  }

  lemma AllRecordedSide(g: Group, users: seq<nat>, u: nat)
    requires MapKeys(users, g) && Reliable(g) && Negatable(g)
    ensures var all := Net(Recorded(g, Edges(g, users)), u);
            (TotalDrift(g.expenses) >= 0 ==> all >= 0) && (TotalDrift(g.expenses) <= 0 ==> all <= 0)
  {
    hide *;
    ReliableDisplay(g, users, u);
    RecordedNet(g, users, u);
    BalanceIsDisplayed(g, users, u);
    var rest := EdgesSplit(g, users);
    DebtsLaws.SimplifySettles(Balances(g, users), u);
  }
}
