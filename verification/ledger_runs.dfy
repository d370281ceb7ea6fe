/** The tables of one group under the handlers that write them, and what holds of the
    balances over every run of those handlers. */
module LedgerRuns {
  import opened Entities
  import opened Numbers
  import opened Options
  import opened Sorting
  import opened Grouping
  import opened Calendar
  import opened Money
  import opened Expenses
  import opened ApportionmentExact
  import opened Ledger
  import opened LedgerLaws
  import Recurring
  import RecurringLedger

  /** The rows written for a request's participants, in request order. */
  function Rows(parts: seq<Part>, amounts: seq<Int64>): (r: seq<Split>)
    requires |parts| == |amounts|
    ensures |r| == |parts| && forall i | 0 <= i < |r| :: r[i] == Split(parts[i].user, amounts[i])
  {
    seq(|parts|, i requires 0 <= i < |parts| => Split(parts[i].user, amounts[i]))
  }

  /** expenses.exchange_rate is NUMERIC(12,6): rounded to six decimals, and below 10^6. */
  function StoredRate(rate: real): real { Round(rate * 1000000.0) as real / 1000000.0 }

  function KeptRate(rate: Option<real>): Option<real> {
    if rate.Some? then Some(StoredRate(rate.value)) else None
  }

  /** expense_splits.percentage is NUMERIC(7,4): percentages below 1000. */
  predicate PercentagesFit(req: Request) {
    req.mode == PERCENTAGE ==> forall i | 0 <= i < |req.parts| && req.parts[i].value.Some? :: req.parts[i].value.value < 100000
  }

  predicate ColumnsFit(rate: Option<real>, req: Request) {
    (rate.Some? ==> StoredRate(rate.value) < 1000000.0) && PercentagesFit(req)
  }

  /** `e` is what a creation or an update stores for the request. */
  ghost predicate Written(e: Expense, payer: UserId, rate: Option<real>, req: Request, id: string, hash: string -> nat,
                          r: SplitResult, idx: seq<nat>) {
    && req.amount > 0 && 0 < |req.parts| < TWO_63
    && SortedIndex(idx, req.parts) && Outcome(r, req, id, hash, idx)
    && r.Ok? && |r.value| == |req.parts|
    && (forall i | 0 <= i < |r.value| :: r.value[i] >= 0)
    && (rate.Some? ==> rate.value > 0.0) && ColumnsFit(rate, req)
    && e == Expense(payer, req.amount, KeptRate(rate), Rows(req.parts, r.value), false)
  }

  /** What the handlers check of a request before they split it. */
  ghost predicate Admissible(members: set<UserId>, payer: UserId, foreign: bool, rate: Option<real>, req: Request) {
    && req.amount > 0 && payer in members && req.parts != []
    && (foreign ==> rate.Some? && rate.value > 0.0)
    && forall i | 0 <= i < |req.parts| :: req.parts[i].user in members
  }

  /** The request is admissible, its split succeeds, and the tables take the rows: no negative
      amount, rate and percentages within their columns, a positive base amount. */
  ghost predicate Accepted(members: set<UserId>, payer: UserId, foreign: bool, rate: Option<real>, base: Int64,
                           req: Request, id: string, hash: string -> nat, r: SplitResult, idx: seq<nat>) {
    && Admissible(members, payer, foreign, rate, req) && |req.parts| < TWO_63
    && SortedIndex(idx, req.parts) && Outcome(r, req, id, hash, idx)
    && r.Ok? && (forall i | 0 <= i < |r.value| :: r.value[i] >= 0)
    && ColumnsFit(if foreign then rate else None, req) && (foreign ==> base > 0)
  }

  /** The row a request leaves: its payer and amount, a rate exactly when it is in a foreign
      currency, live, and one share for each participant, in request order, as computed. */
  ghost predicate Stores(e: Expense, payer: UserId, foreign: bool, rate: Option<real>, req: Request, r: SplitResult) {
    && e.payer == payer && e.amount == req.amount && !e.deleted
    && (if foreign then rate.Some? && e.rate == Some(StoredRate(rate.value)) else e.rate.None?)
    && r.Ok? && |e.splits| == |req.parts| == |r.value|
    && forall k | 0 <= k < |e.splits| :: e.splits[k] == Split(req.parts[k].user, r.value[k])
  }

  /** What it takes to be accepted, from the request alone: a positive amount; a payer and at least
      one participant, all members; in a foreign currency a rate above zero that is stored below a
      million, and a base amount; a split that succeeds without a negative share; and in
      PERCENTAGE mode no value of 1000% or more. */
  lemma AcceptedMeans(members: set<UserId>, payer: UserId, foreign: bool, rate: Option<real>, base: Int64,
                      req: Request, id: string, hash: string -> nat, r: SplitResult, idx: seq<nat>)
    requires |req.parts| < TWO_63
    ensures Accepted(members, payer, foreign, rate, base, req, id, hash, r, idx) <==>
              && 1 <= req.amount && payer in members && 1 <= |req.parts|
              && (forall p | p in req.parts :: p.user in members)
              && (foreign ==> base >= 1 && rate.Some? && 0.0 < rate.value && Round(rate.value * 1000000.0) <= 999999999999)
              && SortedIndex(idx, req.parts) && Outcome(r, req, id, hash, idx)
              && r.Ok? && (forall i | 0 <= i < |r.value| :: 0 <= r.value[i])
              && (req.mode == PERCENTAGE ==> forall p | p in req.parts && p.value.Some? :: p.value.value <= 99999)
  {
    AdmissibleMeans(members, payer, foreign, rate, req);
    FitMeans(if foreign then rate else None, req);
    hide Admissible;
    hide ColumnsFit;
    hide Outcome;
    hide SortedIndex;
    hide Round;
  }

  lemma AdmissibleMeans(members: set<UserId>, payer: UserId, foreign: bool, rate: Option<real>, req: Request)
    ensures Admissible(members, payer, foreign, rate, req) <==>
              && 1 <= req.amount && payer in members && 1 <= |req.parts|
              && (forall p | p in req.parts :: p.user in members)
              && (foreign ==> rate.Some? && 0.0 < rate.value)
  {
  }

  lemma FitMeans(rate: Option<real>, req: Request)
    ensures ColumnsFit(rate, req) <==>
              && (rate.Some? ==> Round(rate.value * 1000000.0) <= 999999999999)
              && (req.mode == PERCENTAGE ==> forall p | p in req.parts && p.value.Some? :: p.value.value <= 99999)
  {
    if rate.Some? { RateBelow(Round(rate.value * 1000000.0)); }
    hide Round;
  }

  lemma RateBelow(n: int)
    ensures n as real / 1000000.0 < 1000000.0 <==> n <= 999999999999
  {
  }

  class GroupTables {
    var members: set<UserId>
    var expenses: seq<Expense>
    var settlements: seq<Settlement>

    constructor ()
      ensures State() == Group({}, [], [])
    {
      members, expenses, settlements := {}, [], [];
    }

    function State(): Group
      reads this
    {
      Group(members, expenses, settlements)
    }

    /** Validation and split computation shared by CreateExpense and UpdateExpense. A row the
        tables refuse rolls the transaction back. `base` is the float64 product of amount and rate,
        rounded and converted. */
    method Prepare(payer: UserId, foreign: bool, rate: Option<real>, base: Int64, req: Request, id: string,
                   hash: string -> nat)
      returns (e: Option<Expense>, ghost r: SplitResult, ghost idx: seq<nat>)
      requires |req.parts| < TWO_63
      ensures e.Some? ==> Written(e.value, payer, if foreign then rate else None, req, id, hash, r, idx)
      ensures e.Some? ==> Stores(e.value, payer, foreign, rate, req, r)
      ensures e.Some? <==> Accepted(members, payer, foreign, rate, base, req, id, hash, r, idx)
      ensures Admissible(members, payer, foreign, rate, req) ==> SortedIndex(idx, req.parts) && Outcome(r, req, id, hash, idx)
    {
      hide Outcome;
      hide SortedIndex;
      hide StoredRate;
      r, idx := Err(NoParticipants), [];
      if req.amount <= 0 || payer !in members || |req.parts| == 0 {
        return None, r, idx;
      }
      if foreign && (rate.None? || rate.value <= 0.0) {
        return None, r, idx;
      }
      for i := 0 to |req.parts|
        invariant forall j | 0 <= j < i :: req.parts[j].user in members
      {
        if req.parts[i].user !in members {
          return None, r, idx;
        }
      }
      var split;
      split, idx := ComputeSplit(req, id, hash);
      r := split;
      OutcomeLength(split, req, id, hash, idx);
      if split.Err? {
        return None, r, idx;
      }
      var kept := if foreign then rate else None;
      if !ColumnsFit(kept, req) || (foreign && base <= 0) {
        return None, r, idx;
      }
      for i := 0 to |split.value|
        invariant forall j | 0 <= j < i :: split.value[j] >= 0
      {
        if split.value[i] < 0 {
          return None, r, idx;
        }
      }
      e := Some(Expense(payer, req.amount, KeptRate(kept), Rows(req.parts, split.value), false));
    }

    /** Accepted exactly when the request is admissible and its split, computed as `r`, can be
        stored; a refused request changes nothing. */
    method CreateExpense(payer: UserId, foreign: bool, rate: Option<real>, base: Int64, req: Request, id: string,
                         hash: string -> nat)
      returns (ok: bool, ghost c: Change, ghost r: SplitResult, ghost idx: seq<nat>)
      requires |req.parts| < TWO_63
      modifies this`expenses
      ensures Admissible(members, payer, foreign, rate, req) ==> SortedIndex(idx, req.parts) && Outcome(r, req, id, hash, idx)
      ensures ok <==> Accepted(members, payer, foreign, rate, base, req, id, hash, r, idx)
      ensures if ok then Step(old(State()), c, State(), hash) && c.Create? && c.req == req && c.r == r
              else State() == old(State())
      ensures ok ==> |expenses| == |old(expenses)| + 1 && expenses[..|old(expenses)|] == old(expenses)
                     && Stores(expenses[|old(expenses)|], payer, foreign, rate, req, r)
    {
      hide Accepted;
      hide Admissible;
      hide SortedIndex;
      hide Outcome;
      hide Written;
      hide Stores;
      var e;
      e, r, idx := Prepare(payer, foreign, rate, base, req, id, hash);
      c := Leave(0);
      if e.None? {
        return false, c, r, idx;
      }
      expenses := expenses + [e.value];
      c := Create(payer, if foreign then rate else None, req, id, e.value, r, idx);
      return true, c, r, idx;
    }

    /** Likewise for a live expense, whose row and splits are replaced. */
    method UpdateExpense(i: nat, payer: UserId, foreign: bool, rate: Option<real>, base: Int64, req: Request, id: string,
                         hash: string -> nat)
      returns (ok: bool, ghost c: Change, ghost r: SplitResult, ghost idx: seq<nat>)
      requires |req.parts| < TWO_63
      modifies this`expenses
      ensures i < |old(expenses)| && !old(expenses)[i].deleted && Admissible(members, payer, foreign, rate, req) ==>
                SortedIndex(idx, req.parts) && Outcome(r, req, id, hash, idx)
      ensures ok <==> i < |old(expenses)| && !old(expenses)[i].deleted
                      && Accepted(members, payer, foreign, rate, base, req, id, hash, r, idx)
      ensures if ok then Step(old(State()), c, State(), hash) && c.Update? && c.i == i && c.req == req && c.r == r
              else State() == old(State())
      ensures ok ==> |expenses| == |old(expenses)| && Stores(expenses[i], payer, foreign, rate, req, r)
                     && forall k | 0 <= k < |expenses| && k != i :: expenses[k] == old(expenses)[k]
    {
      hide Accepted;
      hide Admissible;
      hide SortedIndex;
      hide Outcome;
      hide Written;
      hide Stores;
      c, r, idx := Leave(0), Err(NoParticipants), [];
      if i >= |expenses| || expenses[i].deleted {
        return false, c, r, idx;
      }
      var e;
      e, r, idx := Prepare(payer, foreign, rate, base, req, id, hash);
      if e.None? {
        return false, c, r, idx;
      }
      expenses := expenses[i := e.value];
      c := Update(i, payer, if foreign then rate else None, req, id, e.value, r, idx);
      return true, c, r, idx;
    }

    method DeleteExpense(i: nat) returns (ok: bool)
      modifies this`expenses
      ensures ok <==> i < |old(expenses)| && !old(expenses)[i].deleted
      ensures if ok then forall hash :: Step(old(State()), Delete(i), State(), hash) else State() == old(State())
      ensures ok ==> expenses == old(expenses)[i := old(expenses)[i].(deleted := true)]
    {
      if i >= |expenses| || expenses[i].deleted {
        return false;
      }
      expenses := expenses[i := expenses[i].(deleted := true)];
      return true;
    }

    method CreateSettlement(from: UserId, to: UserId, amount: Int64) returns (ok: bool)
      modifies this`settlements
      ensures ok <==> from != to && amount > 0 && from in members && to in members
      ensures if ok then forall hash :: Step(old(State()), Settle(from, to, amount), State(), hash) else State() == old(State())
      ensures ok ==> settlements == old(settlements) + [Settlement(from, to, amount, false)]
    {
      if from == to || amount <= 0 || from !in members || to !in members {
        return false;
      }
      settlements := settlements + [Settlement(from, to, amount, false)];
      return true;
    }

    method UpdateSettlementAmount(j: nat, amount: Int64) returns (ok: bool)
      modifies this`settlements
      ensures ok <==> j < |old(settlements)| && !old(settlements)[j].deleted && amount > 0
      ensures if ok then forall hash :: Step(old(State()), Resettle(j, amount), State(), hash) else State() == old(State())
      ensures ok ==> settlements == old(settlements)[j := old(settlements)[j].(amount := amount)]
    {
      if j >= |settlements| || settlements[j].deleted || amount <= 0 {
        return false;
      }
      settlements := settlements[j := settlements[j].(amount := amount)];
      return true;
    }

    method DeleteSettlement(j: nat) returns (ok: bool)
      modifies this`settlements
      ensures ok <==> j < |old(settlements)| && !old(settlements)[j].deleted
      ensures if ok then forall hash :: Step(old(State()), Unsettle(j), State(), hash) else State() == old(State())
      ensures ok ==> settlements == old(settlements)[j := old(settlements)[j].(deleted := true)]
    {
      if j >= |settlements| || settlements[j].deleted {
        return false;
      }
      settlements := settlements[j := settlements[j].(deleted := true)];
      return true;
    }
  }

  // ----- runs

  datatype Change =
    | Create(payer: UserId, rate: Option<real>, req: Request, text: string, e: Expense, r: SplitResult, idx: seq<nat>)
    | Update(i: nat, payer: UserId, rate: Option<real>, req: Request, text: string, e: Expense, r: SplitResult, idx: seq<nat>)
    | Delete(i: nat)
    | Materialize(id: Recurring.Id, s: Recurring.Schedule, now: Instant, members: nat -> seq<UserId>)
    | Settle(from: UserId, to: UserId, amount: int)
    | Resettle(j: nat, amount: int)
    | Unsettle(j: nat)
    | Join(u: UserId)
    | Leave(u: UserId)

  /** One committed change to the group's rows. `Materialize` is the recurring worker's. */
  ghost predicate Step(g: Group, c: Change, g': Group, hash: string -> nat) {
    match c
    case Create(payer, rate, req, id, e, r, idx) =>
      Written(e, payer, rate, req, id, hash, r, idx) && g' == g.(expenses := g.expenses + [e])
    case Update(i, payer, rate, req, id, e, r, idx) =>
      && i < |g.expenses| && !g.expenses[i].deleted
      && Written(e, payer, rate, req, id, hash, r, idx) && g' == g.(expenses := g.expenses[i := e])
    case Delete(i) =>
      i < |g.expenses| && !g.expenses[i].deleted && g' == g.(expenses := g.expenses[i := g.expenses[i].(deleted := true)])
    case Materialize(id, s, now, members) =>
      && Recurring.Due(s, now) && (set u | u in members(s.plan.group)) == g.members
      && var e := Recurring.Instance(id, s, now, members);
         e.Some? && g' == g.(expenses := g.expenses + [RecurringLedger.Row(e.value)])
    case Settle(from, to, amount) =>
      && from != to && 0 < amount < TWO_63 && from in g.members && to in g.members
      && g' == g.(settlements := g.settlements + [Settlement(from, to, amount, false)])
    case Resettle(j, amount) =>
      && j < |g.settlements| && !g.settlements[j].deleted && 0 < amount < TWO_63
      && g' == g.(settlements := g.settlements[j := g.settlements[j].(amount := amount)])
    case Unsettle(j) =>
      && j < |g.settlements| && !g.settlements[j].deleted
      && g' == g.(settlements := g.settlements[j := g.settlements[j].(deleted := true)])
    case Join(u) => g' == g.(members := g.members + {u})
    case Leave(u) => g' == g.(members := g.members - {u})
  }

  /** Whether a change keeps the amount it writes: a request that conserves it, or a schedule
      whose definitions add up. */
  ghost predicate Balanced(c: Change) {
    match c
    case Create(_, _, req, _, _, _, _) => Conserves(req)
    case Update(_, _, _, req, _, _, _, _) => Conserves(req)
    case Materialize(_, s, _, members) => RecurringLedger.AddsUp(s.plan, members(s.plan.group))
    case _ => true
  }

  /** The row a change writes. */
  ghost function RowOf(c: Change): Option<Expense> {
    match c
    case Create(_, _, _, _, e, _, _) => Some(e)
    case Update(_, _, _, _, _, e, _, _) => Some(e)
    case Materialize(id, s, now, members) =>
      if Recurring.Due(s, now) && Recurring.Instance(id, s, now, members).Some?
      then Some(RecurringLedger.Row(Recurring.Instance(id, s, now, members).value)) else None
    case _ => None
  }

  /** A history of a group, from no rows at all. */
  ghost predicate Run(states: seq<Group>, changes: seq<Change>, hash: string -> nat) {
    && |states| == |changes| + 1 && states[0] == Group({}, [], [])
    && forall k | 0 <= k < |changes| :: Step(states[k], changes[k], states[k + 1], hash)
  }

  ghost predicate AllConsistent(g: Group) {
    forall i | 0 <= i < |g.expenses| :: Consistent(g.expenses[i])
  }

  ghost predicate AllBalanced(changes: seq<Change>) {
    forall k | 0 <= k < |changes| :: Balanced(changes[k])
  }

  lemma StoredRateNonNegative(rate: real)
    requires rate > 0.0
    ensures StoredRate(rate) >= 0.0
  {
    assert (rate * 1000000.0 + 0.5).Floor >= 0;
  }

  lemma WrittenIsNonNegative(e: Expense, payer: UserId, rate: Option<real>, req: Request, id: string,
                             hash: string -> nat, r: SplitResult, idx: seq<nat>)
    requires Written(e, payer, rate, req, id, hash, r, idx)
    ensures NonNegative(e)
  {
    hide SortedIndex;
    hide Outcome;
    hide ColumnsFit;
    hide StoredRate;
    if rate.Some? { StoredRateNonNegative(rate.value); }
  }

  /** An expense written for a request is consistent if and only if the request conserves its amount. */
  lemma WrittenIsConsistent(e: Expense, payer: UserId, rate: Option<real>, req: Request, id: string,
                            hash: string -> nat, r: SplitResult, idx: seq<nat>)
    requires Written(e, payer, rate, req, id, hash, r, idx)
    ensures Consistent(e) <==> Conserves(req)
    ensures rate.None? ==> (Drift(e) == 0 <==> Conserves(req))
  {
    WrittenIsNonNegative(e, payer, rate, req, id, hash, r, idx);
    SplitAddsUp(r, req, id, hash, idx);
    hide SortedIndex;
    hide Outcome;
    hide Conserves;
    hide Sum;
    hide ColumnsFit;
    assert Map((s: Split) => s.amount, e.splits) == r.value;
    if rate.None? { UnratedDrift(e); }
  }

  lemma UnratedDrift(e: Expense)
    requires e.rate.None?
    ensures Drift(e) == e.amount - SplitSum(e.splits)
  {
    RoundExact(e.amount);
    UnratedShares(e.splits);
    assert Amounts(RawShares(e.splits)) == Map((s: Split) => s.amount, e.splits);
  }

  /** The row a change writes is consistent if and only if the change is balanced. */
  lemma RowConsistentIff(g: Group, c: Change, g': Group, hash: string -> nat)
    requires Step(g, c, g', hash) && (c.Create? || c.Update? || c.Materialize?)
    ensures RowOf(c).Some? && !RowOf(c).value.deleted
    ensures Consistent(RowOf(c).value) <==> Balanced(c)
    ensures RowOf(c).value.rate.None? ==> (Drift(RowOf(c).value) == 0 <==> Balanced(c))
    ensures g'.expenses == if c.Update? then g.expenses[c.i := RowOf(c).value] else g.expenses + [RowOf(c).value]
  {
    match c
    case Create(payer, rate, req, id, e, r, idx) => WrittenIsConsistent(e, payer, rate, req, id, hash, r, idx);
    case Update(_, payer, rate, req, id, e, r, idx) => WrittenIsConsistent(e, payer, rate, req, id, hash, r, idx);
    case Materialize(id, s, now, members) => RecurringLedger.InstanceBalancesIff(id, s, now, members);
    case _ =>
  }

  lemma StepConsistentIff(g: Group, c: Change, g': Group, hash: string -> nat)
    requires Step(g, c, g', hash) && AllConsistent(g)
    ensures AllConsistent(g') <==> Balanced(c)
  {
    if c.Create? || c.Update? || c.Materialize? {
      RowConsistentIff(g, c, g', hash);
      hide Consistent;
      hide Balanced;
      hide Step;
      hide RowOf;
      var i := if c.Update? then c.i else |g.expenses|;
      assert g'.expenses[i] == RowOf(c).value;
    } else if c.Delete? {
      assert Consistent(g.expenses[c.i]);
    }
  }

  ghost predicate AlwaysConsistent(states: seq<Group>) {
    forall k | 0 <= k < |states| :: AllConsistent(states[k])
  }

  lemma AlwaysConsistentSnoc(states: seq<Group>, n: nat)
    requires |states| == n + 1
    ensures AlwaysConsistent(states) <==> AlwaysConsistent(states[..n]) && AllConsistent(states[n])
  {
    hide AllConsistent;
    var before := states[..n];
    assert forall k | 0 <= k < n :: before[k] == states[k];
  }

  lemma RunPrefix(states: seq<Group>, changes: seq<Change>, hash: string -> nat)
    requires Run(states, changes, hash) && changes != []
    ensures var n := |changes| - 1;
            && |states| == n + 2
            && Run(states[..n + 1], changes[..n], hash) && states[..n + 1][n] == states[n]
            && Step(states[n], changes[n], states[n + 1], hash)
            && (AllBalanced(changes) <==> AllBalanced(changes[..n]) && Balanced(changes[n]))
  {
    hide Step;
    hide Balanced;
  }

  /** In every history, all stored rows of all states sum to their amounts if and only if every
      change was balanced. */
  lemma {:induction false} RunKeepsConsistent(states: seq<Group>, changes: seq<Change>, hash: string -> nat)
    requires Run(states, changes, hash)
    ensures |states| == |changes| + 1
    ensures AlwaysConsistent(states) <==> AllBalanced(changes)
    decreases |changes|
  {
    if changes != [] {
      var n := |changes| - 1;
      hide *;
      RunPrefix(states, changes, hash);
      RunKeepsConsistent(states[..n + 1], changes[..n], hash);
      AlwaysConsistentSnoc(states, n + 1);
      if AlwaysConsistent(states[..n + 1]) {
        ConsistentAt(states[..n + 1], n);
        StepConsistentIff(states[n], changes[n], states[n + 1], hash);
      }
    }
  }

  lemma ConsistentAt(states: seq<Group>, k: nat)
    requires AlwaysConsistent(states) && k < |states|
    ensures AllConsistent(states[k])
  {
  }

  /** After any history of balanced changes, a group's balances sum to zero up to half a minor
      unit per split row of its live foreign-currency expenses; so do those of the handler's map
      while it is reliable. */
  lemma BalancesNearZero(states: seq<Group>, changes: seq<Change>, hash: string -> nat, users: seq<UserId>)
    requires Run(states, changes, hash) && AllBalanced(changes)
    ensures KeysOf(users, states[|changes|]) ==> Abs(Sum(Nets(states[|changes|], users))) <= DriftBound(states[|changes|].expenses)
    ensures MapKeys(users, states[|changes|]) && Reliable(states[|changes|]) ==>
              Abs(Sum(Displays(states[|changes|], users))) <= DriftBound(states[|changes|].expenses)
  {
    RunKeepsConsistent(states, changes, hash);
    assert AllConsistent(states[|changes|]);
    DriftWithin(states[|changes|].expenses);
    hide Reliable;
    hide Consistent;
    hide KeysOf;
    hide MapKeys;
    if KeysOf(users, states[|changes|]) { BalancesSumToDrift(states[|changes|], users); }
    if MapKeys(users, states[|changes|]) && Reliable(states[|changes|]) { DisplaysSum(states[|changes|], users); }
  }

  lemma {:induction false} UnratedBound(expenses: seq<Expense>)
    requires Unrated(expenses)
    ensures DriftBound(expenses) == 0
  {
    if expenses != [] {
      UnratedBound(expenses[..|expenses| - 1]);
    }
  }

  /** Without live foreign-currency expenses they sum to zero exactly. */
  lemma BalancesSumToZero(states: seq<Group>, changes: seq<Change>, hash: string -> nat, users: seq<UserId>)
    requires Run(states, changes, hash) && AllBalanced(changes)
    requires Unrated(states[|changes|].expenses)
    ensures TotalDrift(states[|changes|].expenses) == 0
    ensures KeysOf(users, states[|changes|]) ==> Sum(Nets(states[|changes|], users)) == 0
    ensures MapKeys(users, states[|changes|]) && Reliable(states[|changes|]) ==> Sum(Displays(states[|changes|], users)) == 0
  {
    RunKeepsConsistent(states, changes, hash);
    assert AllConsistent(states[|changes|]);
    DriftWithin(states[|changes|].expenses);
    BalancesNearZero(states, changes, hash, users);
    UnratedBound(states[|changes|].expenses);
  }

  // ----- exactly when balances sum to zero

  /** No change of the history writes an exchange rate. */
  ghost predicate Rateless(changes: seq<Change>) {
    forall k | 0 <= k < |changes| :: RowOf(changes[k]).Some? ==> RowOf(changes[k]).value.rate.None?
  }

  ghost predicate Driftless(g: Group) {
    forall i | 0 <= i < |g.expenses| :: Drift(g.expenses[i]) == 0
  }

  lemma {:induction false} DriftlessTotal(expenses: seq<Expense>)
    requires forall i | 0 <= i < |expenses| :: Drift(expenses[i]) == 0
    ensures TotalDrift(expenses) == 0
  {
    if expenses != [] {
      DriftlessTotal(expenses[..|expenses| - 1]);
    }
  }

  /** The only live row that drifts moves the total. */
  lemma {:induction false} OneDrifts(expenses: seq<Expense>, j: nat)
    requires j < |expenses| && !expenses[j].deleted
    requires forall i | 0 <= i < |expenses| && i != j :: Drift(expenses[i]) == 0
    ensures TotalDrift(expenses) == Drift(expenses[j])
  {
    var n := |expenses| - 1;
    if j == n {
      DriftlessTotal(expenses[..n]);
    } else {
      OneDrifts(expenses[..n], j);
    }
  }

  lemma StepDriftlessIff(g: Group, c: Change, g': Group, hash: string -> nat)
    requires Step(g, c, g', hash) && Driftless(g) && (RowOf(c).Some? ==> RowOf(c).value.rate.None?)
    ensures TotalDrift(g'.expenses) == 0 <==> Balanced(c)
    ensures Balanced(c) ==> Driftless(g')
  {
    if c.Create? || c.Update? || c.Materialize? {
      RowConsistentIff(g, c, g', hash);
      hide Drift;
      hide Balanced;
      hide Step;
      hide RowOf;
      OneDrifts(g'.expenses, if c.Update? then c.i else |g.expenses|);
    } else {
      if c.Delete? { SameDrift(g.expenses[c.i]); }
      hide Drift;
      DriftlessTotal(g'.expenses);
    }
  }

  lemma SameDrift(e: Expense)
    ensures Drift(e.(deleted := true)) == Drift(e)
  {
  }

  ghost predicate NeverOff(states: seq<Group>) {
    forall k | 0 <= k < |states| :: TotalDrift(states[k].expenses) == 0
  }

  lemma NeverOffSnoc(states: seq<Group>, n: nat)
    requires |states| == n + 1
    ensures NeverOff(states) <==> NeverOff(states[..n]) && TotalDrift(states[n].expenses) == 0
  {
    hide TotalDrift;
    var before := states[..n];
    assert forall k | 0 <= k < n :: before[k] == states[k];
  }

  lemma RatelessPrefix(changes: seq<Change>)
    requires Rateless(changes) && changes != []
    ensures var n := |changes| - 1;
            Rateless(changes[..n]) && (RowOf(changes[n]).Some? ==> RowOf(changes[n]).value.rate.None?)
  {
    hide RowOf;
  }

  lemma {:induction false} RunDriftlessIff(states: seq<Group>, changes: seq<Change>, hash: string -> nat)
    requires Run(states, changes, hash) && Rateless(changes)
    ensures |states| == |changes| + 1
    ensures NeverOff(states) <==> AllBalanced(changes)
    ensures AllBalanced(changes) ==> Driftless(states[|changes|])
    decreases |changes|
  {
    if changes != [] {
      var n := |changes| - 1;
      hide *;
      RunPrefix(states, changes, hash);
      RatelessPrefix(changes);
      RunDriftlessIff(states[..n + 1], changes[..n], hash);
      NeverOffSnoc(states, n + 1);
      if AllBalanced(changes[..n]) {
        StepDriftlessIff(states[n], changes[n], states[n + 1], hash);
      }
    }
  }

  /** In a history without exchange rates the ledger's balances sum to zero in every state if and
      only if every change was balanced, and the handler's map shows balances that are the ledger's
      and sum to zero in every state if and only if, moreover, every state is reliable. `listings`
      and `maps` name each state's users and map keys. */
  lemma BalancesSumToZeroIff(states: seq<Group>, changes: seq<Change>, hash: string -> nat, listings: seq<seq<UserId>>,
                             maps: seq<seq<UserId>>)
    requires Run(states, changes, hash) && Rateless(changes)
    requires |listings| == |states| && forall k | 0 <= k < |states| :: KeysOf(listings[k], states[k])
    requires |maps| == |states| && forall k | 0 <= k < |states| :: MapKeys(maps[k], states[k])
    ensures (forall k | 0 <= k < |states| :: Sum(Nets(states[k], listings[k])) == 0) <==> AllBalanced(changes)
    ensures (forall k | 0 <= k < |states| :: ShowsLedger(states[k]) && Sum(Displays(states[k], maps[k])) == 0)
       <==> AllBalanced(changes) && forall k | 0 <= k < |states| :: Reliable(states[k])
  {
    RunDriftlessIff(states, changes, hash);
    hide TotalDrift;
    hide KeysOf;
    hide MapKeys;
    hide Reliable;
    hide ShowsLedger;
    hide Sum;
    hide AllBalanced;
    hide Run;
    forall k | 0 <= k < |states|
      ensures Sum(Nets(states[k], listings[k])) == TotalDrift(states[k].expenses)
      ensures ShowsLedger(states[k]) <==> Reliable(states[k])
      ensures Reliable(states[k]) ==> Sum(Displays(states[k], maps[k])) == TotalDrift(states[k].expenses)
    {
      BalancesSumToDrift(states[k], listings[k]);
      ShowsLedgerIff(states[k]);
      if Reliable(states[k]) { DisplaysSum(states[k], maps[k]); }
    }
  }

  // ----- when the handler's sums fail

  lemma {:induction false} RowsNonNegative(expenses: seq<Expense>)
    requires forall i | 0 <= i < |expenses| :: NonNegative(expenses[i])
    ensures forall i | 0 <= i < |PaidItems(expenses)| :: PaidItems(expenses)[i].value >= 0
    ensures forall i | 0 <= i < |OwedItems(expenses)| :: OwedItems(expenses)[i].value >= 0
  {
    if expenses != [] {
      var e := expenses[|expenses| - 1];
      RowsNonNegative(expenses[..|expenses| - 1]);
      hide Converted;
      ConvertedNonNegative(e.amount, RateOf(e));
      forall i | 0 <= i < |e.splits|
        ensures ShareItems(e.splits, RateOf(e))[i].value >= 0
      {
        ConvertedNonNegative(e.splits[i].amount, RateOf(e));
      }
    }
  }

  lemma ConvertedNonNegative(amount: int, rate: real)
    requires amount >= 0 && rate >= 0.0
    ensures Converted(amount, rate) >= 0
  {
    ProductNonNegative(amount, rate);
  }

  ghost predicate AllNonNegative(g: Group) {
    forall i | 0 <= i < |g.expenses| :: NonNegative(g.expenses[i])
  }

  lemma StepKeepsNonNegative(g: Group, c: Change, g': Group, hash: string -> nat)
    requires Step(g, c, g', hash) && AllNonNegative(g)
    ensures AllNonNegative(g')
  {
    match c
    case Create(payer, rate, req, id, e, r, idx) => WrittenIsNonNegative(e, payer, rate, req, id, hash, r, idx);
    case Update(_, payer, rate, req, id, e, r, idx) => WrittenIsNonNegative(e, payer, rate, req, id, hash, r, idx);
    case Materialize(id, s, now, members) => RecurringLedger.InstanceNonNegative(id, s, now, members);
    case Delete(i) => assert NonNegative(g.expenses[i]);
    case _ =>
  }

  lemma {:induction false} RunKeepsNonNegative(states: seq<Group>, changes: seq<Change>, hash: string -> nat, k: nat)
    requires Run(states, changes, hash) && k < |states|
    ensures AllNonNegative(states[k])
  {
    if k > 0 {
      assert Step(states[k - 1], changes[k - 1], states[k], hash);
      RunKeepsNonNegative(states, changes, hash, k - 1);
      hide *;
      StepKeepsNonNegative(states[k - 1], changes[k - 1], states[k], hash);
    }
  }

  /** What is sure to keep a map reliable, read off its own sums. */
  ghost predicate SumsFit(g: Group) {
    forall u: UserId :: Total(PaidItems(g.expenses), u) < TWO_63 && Total(OwedItems(g.expenses), u) < TWO_63 && InInt64(Net(g, u))
  }

  /** In every run a query fails exactly when some user's converted sum reaches 2^63, so a map
      whose sums and balances stay within is reliable. */
  lemma QueriesAnswerIff(states: seq<Group>, changes: seq<Change>, hash: string -> nat)
    requires Run(states, changes, hash)
    ensures var g := states[|changes|];
            && (Summable(PaidItems(g.expenses)) <==> forall u: UserId :: Total(PaidItems(g.expenses), u) < TWO_63)
            && (Summable(OwedItems(g.expenses)) <==> forall u: UserId :: Total(OwedItems(g.expenses), u) < TWO_63)
            && (SumsFit(g) ==> Reliable(g))
  {
    RunKeepsNonNegative(states, changes, hash, |changes|);
    var g := states[|changes|];
    assert AllNonNegative(g);
    RowsNonNegative(g.expenses);
    SummableIff(PaidItems(g.expenses));
    SummableIff(OwedItems(g.expenses));
    hide Run;
    hide PaidItems;
    hide OwedItems;
    hide Summable;
    hide Net;
    hide Total;
    hide NonNegative;
  }

  /** Leaving changes nobody's balance, and a leaver who is not settled up stays in the map. */
  lemma LeaverStillCounted(g: Group, u: UserId, v: UserId)
    ensures var g' := g.(members := g.members - {u});
            && Net(g', v) == Net(g, v)
            && (Net(g, v) != 0 ==> Mentioned(g', v))
  {
    if Net(g, v) != 0 {
      NetIsMentioned(g.(members := g.members - {u}), v);
    }
  }

  // ----- stored percentages

  lemma {:induction false} SumBelow(s: seq<int>, bound: nat)
    requires forall i | 0 <= i < |s| :: 0 <= s[i] < bound
    ensures 0 <= Sum(s) <= bound * |s|
  {
    if s != [] {
      SumBelow(s[..|s| - 1], bound);
      assert bound * |s| == bound * (|s| - 1) + bound;
    }
  }

  lemma SortedPercentages(r: SplitResult, req: Request, id: string, hash: string -> nat, idx: seq<nat>)
    requires |req.parts| < TWO_63 && SortedIndex(idx, req.parts) && Outcome(r, req, id, hash, idx)
    requires r.Ok? && req.mode == PERCENTAGE
    ensures !AnyMissing(req.parts) && req.amount > 0 && req.parts != [] && !AnyBelow(Values(req.parts), 0) && Wrap(Sum(Values(req.parts))) == 10000
  {
    IndexFacts(idx, |req.parts|);
    var values := Values(req.parts);
    hide SortedIndex;
    hide Sum;
    if req.parts != [] {
      PickMultiset(values, idx);
      SumMultiset(values, Pick(values, idx));
      AnyBelowMultiset(values, Pick(values, idx), 0);
    }
  }

  lemma PercentageValues(req: Request)
    requires req.mode == PERCENTAGE && PercentagesFit(req) && !AnyMissing(req.parts) && !AnyBelow(Values(req.parts), 0)
    ensures forall i | 0 <= i < |req.parts| :: 0 <= Values(req.parts)[i] < 100000
  {
  }

  lemma {:induction false} TrueSum(values: seq<Int64>)
    requires forall i | 0 <= i < |values| :: 0 <= values[i] < 100000
    requires Wrap(Sum(values)) == 10000 && |values| * 100000 < TWO_64
    ensures Sum(values) == 10000
  {
    SumBelow(values, 100000);
    hide Sum;
  }

  /** The percentage column keeps out sums that wrap around: the percentages of a stored expense
      with fewer than 1.8 * 10^14 rows truly sum to 100%, and it conserves its amount if and only if
      no product leaves int64. */
  lemma StoredPercentages(e: Expense, payer: UserId, rate: Option<real>, req: Request, id: string, hash: string -> nat,
                          r: SplitResult, idx: seq<nat>)
    requires Written(e, payer, rate, req, id, hash, r, idx) && req.mode == PERCENTAGE
    requires |req.parts| * 100000 < TWO_64
    ensures Sum(Values(req.parts)) == 10000
    ensures Conserves(req) <==> forall i | 0 <= i < |req.parts| :: req.amount * Values(req.parts)[i] < TWO_63
  {
    SortedPercentages(r, req, id, hash, idx);
    hide Written;
    hide Sum;
    hide Values;
    hide Outcome;
    hide Coverable;
    hide AnyMissing;
    hide AnyBelow;
    hide PercentagesFit;
    hide SortedIndex;
    hide Wrap;
    PercentageValues(req);
    TrueSum(Values(req.parts));
    CoverableIffProductsFit(req.amount, Values(req.parts), 10000);
  }

  // ----- accepted requests that do not conserve their amount

  const WRAPPING_PARTS: seq<Part> := [Part(1, Some(TWO_63 - 1)), Part(2, Some(TWO_63 - 1)), Part(3, Some(3))]
  const WRAPPING_AMOUNTS: seq<Int64> := [TWO_63 - 1, TWO_63 - 1, 3]
  const HUGE_PARTS: seq<Part> := [Part(1, Some(0x1000_0000_0000_0000)), Part(2, Some(0x1000_0000_0000_0000))]
  const WHOLE_PARTS: seq<Part> := [Part(1, Some(10000))]

  /** A request in user order whose split succeeds is written as computed. */
  lemma WrittenInOrder(req: Request, amounts: seq<Int64>, rate: Option<real>, id: string, hash: string -> nat)
    requires req.amount > 0 && 0 < |req.parts| < TWO_63 && |amounts| == |req.parts|
    requires forall i, j | 0 <= i < j < |req.parts| :: req.parts[i].user < req.parts[j].user
    requires forall i | 0 <= i < |req.parts| :: req.parts[i].value.Some?
    requires forall i | 0 <= i < |amounts| :: amounts[i] >= 0
    requires (rate.Some? ==> rate.value > 0.0) && ColumnsFit(rate, req)
    requires ModeSplit(req, Values(req.parts), id, hash) == Ok(amounts)
    ensures SortedIndex(Identity(|req.parts|), req.parts)
    ensures Written(Expense(1, req.amount, KeptRate(rate), Rows(req.parts, amounts), false), 1, rate, req, id, hash,
                    Ok(amounts), Identity(|req.parts|))
  {
    hide ColumnsFit;
    hide StoredRate;
    var idx := Identity(|req.parts|);
    assert SortedIndex(idx, req.parts);
    assert Pick(Values(req.parts), idx) == Values(req.parts);
    assert Pick(amounts, idx) == amounts;
    hide ModeSplit;
    hide SortedIndex;
    hide Values;
  }

  /** The row is off by the difference between the request's amount and its rows' sum. */
  lemma {:induction false} RowDrift(req: Request, amounts: seq<Int64>)
    requires |amounts| == |req.parts|
    ensures TotalDrift([Expense(1, req.amount, None, Rows(req.parts, amounts), false)]) == req.amount - Sum(amounts)
  {
    var e := Expense(1, req.amount, None, Rows(req.parts, amounts), false);
    UnratedDrift(e);
    assert Map((s: Split) => s.amount, e.splits) == amounts;
    assert [e][..0] == [];
  }

  /** An EXACT split that passes its int64 check with a wrapped sum puts the group off balance by 2^64. */
  lemma WrappedSplitBreaksTheLedger(id: string, hash: string -> nat)
    ensures var req := Request(1, EXACT, WRAPPING_PARTS);
            var e := Expense(1, 1, None, Rows(WRAPPING_PARTS, WRAPPING_AMOUNTS), false);
            && SortedIndex(Identity(3), WRAPPING_PARTS)
            && Written(e, 1, None, req, id, hash, Ok(WRAPPING_AMOUNTS), Identity(3))
            && TotalDrift([e]) == -TWO_64
  {
    ExactSplitWrapsAround();
    assert Values(WRAPPING_PARTS) == WRAPPING_AMOUNTS;
    hide Values;
    hide ExactSplit;
    hide Sum;
    hide SortedIndex;
    hide Written;
    hide TotalDrift;
    WrittenInOrder(Request(1, EXACT, WRAPPING_PARTS), WRAPPING_AMOUNTS, None, id, hash);
    RowDrift(Request(1, EXACT, WRAPPING_PARTS), WRAPPING_AMOUNTS);
  }

  /** An amount of 100 over shares of 2^60 and 2^60 charges 3 and 3: the group is off by 94. */
  lemma HugeSharesBreakTheLedger(id: string, hash: string -> nat)
    ensures var req := Request(100, SHARES, HUGE_PARTS);
            var e := Expense(1, 100, None, Rows(HUGE_PARTS, THREES), false);
            && SortedIndex(Identity(2), HUGE_PARTS)
            && Written(e, 1, None, req, id, hash, Ok(THREES), Identity(2))
            && TotalDrift([e]) == 94
  {
    assert Values(HUGE_PARTS) == HUGE_SHARES;
    hide Values;
    hide SharesSplit;
    hide Sum;
    hide SortedIndex;
    hide Written;
    hide TotalDrift;
    SharesSplitWrapsAround(id, hash);
    PairSum(THREES);
    WrittenInOrder(Request(100, SHARES, HUGE_PARTS), THREES, None, id, hash);
    RowDrift(Request(100, SHARES, HUGE_PARTS), THREES);
  }

  /** 100% of 1844674407370956 charges 1. */
  lemma HugeAmountBreaksTheLedger(id: string, hash: string -> nat)
    ensures var req := Request(1844674407370956, PERCENTAGE, WHOLE_PARTS);
            var e := Expense(1, 1844674407370956, None, Rows(WHOLE_PARTS, [1]), false);
            && SortedIndex(Identity(1), WHOLE_PARTS)
            && Written(e, 1, None, req, id, hash, Ok([1]), Identity(1))
            && TotalDrift([e]) == 1844674407370955
  {
    var amounts: seq<Int64> := [1];
    PercentageSplitWrapsAround(id, hash);
    SingleSum(amounts);
    assert Values(WHOLE_PARTS) == WHOLE;
    hide Values;
    hide PercentageSplit;
    hide Sum;
    hide SortedIndex;
    hide Written;
    hide TotalDrift;
    WrittenInOrder(Request(1844674407370956, PERCENTAGE, WHOLE_PARTS), amounts, None, id, hash);
    RowDrift(Request(1844674407370956, PERCENTAGE, WHOLE_PARTS), amounts);
  }
}
