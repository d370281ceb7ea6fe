/** The report aggregates of internal/db/wallet_reports.sql.go and the account queries of
    internal/db/wallet.sql.go, over ledger entries given as arbitrary records. */
module Reports {
  import opened Numbers
  import opened Options

  type Id = nat

  datatype EntryType = Income | Expense | Transfer | OtherType

  /** A row of the ledger; `tags` are those of its transaction. */
  datatype Entry = Entry(
    id: Id, user: Id, kind: string, entryType: EntryType, source: string,
    account: Option<Id>, toAccount: Option<Id>,
    amount: int, currency: string, toAmount: Option<int>, toCurrency: Option<string>,
    accountAmount: Option<int>, toAccountAmount: Option<int>, flowAmount: int,
    category: Option<Id>, grp: Option<Id>, tags: set<Id>, occurredAt: Option<int>, dueAt: Option<int>)

  datatype Planned = OnlyPlanned | WithPlanned | NotPlanned

  /** The parameters the three reports share. `text` stands for the search terms. */
  datatype Filters = Filters(
    user: Id, planned: Planned, from: Option<int>, until: Option<int>,
    kinds: set<string>, types: set<EntryType>, sources: set<string>, exclSources: set<string>,
    accounts: set<Id>, categories: set<Id>, categoryNone: bool, groups: set<Id>,
    tags: set<Id>, exclTags: set<Id>, text: Entry -> bool, min: Option<int>, max: Option<int>)

  predicate Among(x: Option<Id>, ids: set<Id>) { x.Some? && x.value in ids }

  /** No account filter, or an account it names. A NULL account is never among them. */
  predicate InAccounts(x: Option<Id>, f: Filters) { f.accounts == {} || Among(x, f.accounts) }

  function SortAt(e: Entry): Option<int> { if e.occurredAt.Some? then e.occurredAt else e.dueAt }

  /** The conditions on the entry, the same in all three reports; `included` is the accounts'
      include_in_balance. */
  predicate Selected(e: Entry, f: Filters, included: Id -> bool) {
    && e.user == f.user
    && (match f.planned case OnlyPlanned => e.occurredAt.None? case WithPlanned => true case NotPlanned => e.occurredAt.Some?)
    && (f.from.None? || (SortAt(e).Some? && SortAt(e).value >= f.from.value))
    && (f.until.None? || (SortAt(e).Some? && SortAt(e).value < f.until.value))
    && (f.kinds == {} || e.kind in f.kinds)
    && (f.types == {} || e.entryType in f.types)
    && (f.sources == {} || e.source in f.sources)
    && e.source !in f.exclSources
    && (f.accounts == {} || Among(e.account, f.accounts) || Among(e.toAccount, f.accounts))
    && ((f.categories == {} && !f.categoryNone) || Among(e.category, f.categories) || (f.categoryNone && e.category.None?))
    && (f.groups == {} || Among(e.grp, f.groups))
    && (f.tags == {} || (e.kind == "TRANSACTION" && e.tags * f.tags != {}))
    && (f.exclTags == {} || e.kind != "TRANSACTION" || e.tags * f.exclTags == {})
    && f.text(e)
    && (f.min.None? || e.amount >= f.min.value)
    && (f.max.None? || e.amount <= f.max.value)
    && e.entryType != OtherType
    && e.source != "ADJUSTMENT" && e.source != "LOAN"
    && (e.entryType == Transfer || e.flowAmount > 0)
    && (e.entryType == Transfer || e.kind != "TRANSACTION" || e.account.None? || included(e.account.value) || f.accounts != {})
  }

  // ----- two legs per entry

  datatype Leg = Leg(e: Entry, n: nat)

  /** CROSS JOIN LATERAL (VALUES (0), (1)) */
  function Legs(ledger: seq<Entry>): (r: seq<Leg>)
    ensures |r| == 2 * |ledger|
  {
    seq(2 * |ledger|, i requires 0 <= i < 2 * |ledger| => Leg(ledger[i / 2], i % 2))
  }

  predicate Counted(l: Leg, f: Filters, included: Id -> bool) {
    Selected(l.e, f, included) && (l.n == 0 || l.e.entryType == Transfer)
  }

  /** The two further conditions of ReportByAccount. */
  predicate CountedByAccount(l: Leg, f: Filters, included: Id -> bool) {
    && Counted(l, f, included)
    && (l.n == 1 || l.e.entryType != Transfer || InAccounts(l.e.account, f))
    && (l.n == 0 || InAccounts(l.e.toAccount, f))
  }

  function CurrencyOf(l: Leg): string {
    if l.n == 0 || l.e.toCurrency.None? then l.e.currency else l.e.toCurrency.value
  }

  function AccountOf(l: Leg): Option<Id> { if l.n == 0 then l.e.account else l.e.toAccount }

  datatype Column = IncomeSum | ExpenseSum | TransfersOut | TransfersIn

  /** What a leg adds to a column: the FILTER clauses. */
  function Value(l: Leg, c: Column, f: Filters): int {
    match c
    case IncomeSum => if l.n == 0 && l.e.entryType == Income then l.e.flowAmount else 0
    case ExpenseSum => if l.n == 0 && l.e.entryType == Expense then l.e.flowAmount else 0
    case TransfersOut => if l.n == 0 && l.e.entryType == Transfer && InAccounts(l.e.account, f) then l.e.amount else 0
    case TransfersIn =>
      if l.n == 1 && InAccounts(l.e.toAccount, f)
      then (if l.e.toAmount.Some? then l.e.toAmount.value else l.e.amount) else 0
  }

  // ----- GROUP BY

  function SumOver<T(!new)>(rows: seq<T>, keep: T -> bool, value: T -> int): int {
    if rows == [] then 0
    else SumOver(rows[..|rows| - 1], keep, value) + if keep(rows[|rows| - 1]) then value(rows[|rows| - 1]) else 0
  }

  lemma {:induction false} SumOverSame<T(!new)>(rows: seq<T>, p: T -> bool, q: T -> bool, value: T -> int)
    requires forall i | 0 <= i < |rows| :: p(rows[i]) == q(rows[i]) || value(rows[i]) == 0
    ensures SumOver(rows, p, value) == SumOver(rows, q, value)
  {
    if rows != [] {
      SumOverSame(rows[..|rows| - 1], p, q, value);
    }
  }

  lemma {:induction false} SumOverSplit<T(!new)>(rows: seq<T>, p: T -> bool, q: T -> bool, r: T -> bool, value: T -> int)
    requires forall x :: p(x) == (q(x) || r(x)) && !(q(x) && r(x))
    ensures SumOver(rows, p, value) == SumOver(rows, q, value) + SumOver(rows, r, value)
  {
    if rows != [] {
      SumOverSplit(rows[..|rows| - 1], p, q, r, value);
    }
  }

  datatype Group<K> = Group(key: K, sums: Column -> int)

  /** A result of SELECT key, sums FROM legs WHERE keep GROUP BY key: one row per occurring key,
      and no other, in any order. */
  ghost predicate IsGrouping<K(!new)>(result: seq<Group<K>>, legs: seq<Leg>, keep: Leg -> bool, key: Leg -> K, f: Filters) {
    && (forall i, j | 0 <= i < j < |result| :: result[i].key != result[j].key)
    && (forall l | l in legs && keep(l) :: exists i | 0 <= i < |result| :: result[i].key == key(l))
    && (forall i | 0 <= i < |result| :: exists l :: l in legs && keep(l) && result[i].key == key(l))
    && forall i, c | 0 <= i < |result| :: result[i].sums(c) == GroupSum(legs, keep, key, result[i].key, c, f)
  }

  ghost function GroupSum<K(!new)>(legs: seq<Leg>, keep: Leg -> bool, key: Leg -> K, k: K, c: Column, f: Filters): int {
    SumOver(legs, (l: Leg) => keep(l) && key(l) == k, (l: Leg) => Value(l, c, f))
  }

  /** The sum of a column over the result rows for which `pick` holds. */
  ghost function Across<K(!new)>(result: seq<Group<K>>, pick: K -> bool, c: Column): int {
    if result == [] then 0
    else
      var g := result[|result| - 1];
      Across(result[..|result| - 1], pick, c) + if pick(g.key) then g.sums(c) else 0
  }

  /** Rows of a grouping add up to the sum over the legs they were made of. */
  lemma {:induction false} AcrossIsSum<K(!new)>(result: seq<Group<K>>, legs: seq<Leg>, keep: Leg -> bool, key: Leg -> K,
                                               f: Filters, pick: K -> bool, c: Column)
    requires forall i, j | 0 <= i < j < |result| :: result[i].key != result[j].key
    requires forall i, c | 0 <= i < |result| :: result[i].sums(c) == GroupSum(legs, keep, key, result[i].key, c, f)
    ensures Across(result, pick, c) ==
              SumOver(legs, (l: Leg) => keep(l) && pick(key(l)) && KeyIn(result, key(l)), (l: Leg) => Value(l, c, f))
    decreases |result|
  {
    var value := (l: Leg) => Value(l, c, f);
    var all := (l: Leg) => keep(l) && pick(key(l)) && KeyIn(result, key(l));
    if result == [] {
      NothingKept(legs, all, value);
    } else {
      var init, g := result[..|result| - 1], result[|result| - 1];
      AcrossIsSum(init, legs, keep, key, f, pick, c);
      var before := (l: Leg) => keep(l) && pick(key(l)) && KeyIn(init, key(l));
      var last := (l: Leg) => keep(l) && key(l) == g.key;
      var lastPicked := (l: Leg) => keep(l) && pick(key(l)) && key(l) == g.key;
      forall l: Leg
        ensures all(l) == (before(l) || lastPicked(l)) && !(before(l) && lastPicked(l))
      {
        KeyInSnoc(result, key(l));
      }
      SumOverSplit(legs, all, before, lastPicked, value);
      if pick(g.key) {
        SumOverSame(legs, last, lastPicked, value);
      } else {
        NothingKept(legs, lastPicked, value);
      }
      assert GroupSum(legs, keep, key, g.key, c, f) == SumOver(legs, last, value);
    }
  }

  ghost predicate KeyIn<K(!new)>(result: seq<Group<K>>, k: K) { exists i | 0 <= i < |result| :: result[i].key == k }

  lemma KeyInSnoc<K(!new)>(result: seq<Group<K>>, k: K)
    requires result != [] && forall i, j | 0 <= i < j < |result| :: result[i].key != result[j].key
    ensures KeyIn(result, k) <==> KeyIn(result[..|result| - 1], k) || k == result[|result| - 1].key
    ensures !KeyIn(result[..|result| - 1], result[|result| - 1].key)
  {
    var init := result[..|result| - 1];
    if KeyIn(result, k) && k != result[|result| - 1].key {
      var i :| 0 <= i < |result| && result[i].key == k;
      assert init[i].key == k;
    }
    if KeyIn(init, k) {
      var i :| 0 <= i < |init| && init[i].key == k;
      assert result[i].key == k;
    }
  }

  lemma {:induction false} NothingKept<T(!new)>(rows: seq<T>, keep: T -> bool, value: T -> int)
    requires forall i | 0 <= i < |rows| :: !keep(rows[i])
    ensures SumOver(rows, keep, value) == 0
  {
    if rows != [] {
      NothingKept(rows[..|rows| - 1], keep, value);
    }
  }

  lemma {:induction false} GroupingAcross<K(!new)>(result: seq<Group<K>>, legs: seq<Leg>, keep: Leg -> bool, key: Leg -> K, f: Filters,
                                pick: K -> bool, picked: Leg -> bool, c: Column)
    requires IsGrouping(result, legs, keep, key, f)
    requires forall l :: picked(l) == (keep(l) && pick(key(l)))
    ensures Across(result, pick, c) == SumOver(legs, picked, (l: Leg) => Value(l, c, f))
  {
    AcrossIsSum(result, legs, keep, key, f, pick, c);
    SumOverSame(legs, (l: Leg) => keep(l) && pick(key(l)) && KeyIn(result, key(l)), picked, (l: Leg) => Value(l, c, f));
  }

  // ----- the three reports

  ghost predicate IsReportTotals(r: seq<Group<string>>, ledger: seq<Entry>, f: Filters, included: Id -> bool) {
    IsGrouping(r, Legs(ledger), (l: Leg) => Counted(l, f, included), CurrencyOf, f)
  }

  /** `bucket` is the start of the bucket an entry's time falls into. */
  ghost predicate IsReportTrend(r: seq<Group<(int, string)>>, ledger: seq<Entry>, f: Filters,
                                included: Id -> bool, bucket: Entry -> int) {
    IsGrouping(r, Legs(ledger), (l: Leg) => Counted(l, f, included), (l: Leg) => (bucket(l.e), CurrencyOf(l)), f)
  }

  ghost predicate IsReportByAccount(r: seq<Group<(Option<Id>, string)>>, ledger: seq<Entry>, f: Filters,
                                    included: Id -> bool) {
    IsGrouping(r, Legs(ledger), (l: Leg) => CountedByAccount(l, f, included), (l: Leg) => (AccountOf(l), CurrencyOf(l)), f)
  }

  /** For every ledger and every filter the three reports agree: per currency, income, expense
      and both transfer sums of the totals are those over all trend buckets and all accounts. */
  lemma ReportsAgree(ledger: seq<Entry>, f: Filters, included: Id -> bool, bucket: Entry -> int,
                     totals: seq<Group<string>>, trend: seq<Group<(int, string)>>, byAccount: seq<Group<(Option<Id>, string)>>,
                     currency: string, c: Column)
    requires IsReportTotals(totals, ledger, f, included)
    requires IsReportTrend(trend, ledger, f, included, bucket)
    requires IsReportByAccount(byAccount, ledger, f, included)
    ensures Across(totals, (k: string) => k == currency, c)
         == Across(trend, (k: (int, string)) => k.1 == currency, c)
         == Across(byAccount, (k: (Option<Id>, string)) => k.1 == currency, c)
  {
    var legs := Legs(ledger);
    var picked := (l: Leg) => Counted(l, f, included) && CurrencyOf(l) == currency;
    var pickedByAccount := (l: Leg) => CountedByAccount(l, f, included) && CurrencyOf(l) == currency;
    var value := (l: Leg) => Value(l, c, f);
    hide Selected;
    hide IsGrouping;
    GroupingAcross(totals, legs, (l: Leg) => Counted(l, f, included), CurrencyOf, f, (k: string) => k == currency, picked, c);
    GroupingAcross(trend, legs, (l: Leg) => Counted(l, f, included), (l: Leg) => (bucket(l.e), CurrencyOf(l)), f,
                   (k: (int, string)) => k.1 == currency, picked, c);
    GroupingAcross(byAccount, legs, (l: Leg) => CountedByAccount(l, f, included), (l: Leg) => (AccountOf(l), CurrencyOf(l)), f,
                   (k: (Option<Id>, string)) => k.1 == currency, pickedByAccount, c);
    SumOverSame(legs, picked, pickedByAccount, value);
  }

  // ----- what the columns mean

  lemma {:induction false} LegSums(ledger: seq<Entry>, keep: Leg -> bool, value: Leg -> int)
    ensures SumOver(Legs(ledger), keep, value)
         == SumOver(ledger, (e: Entry) => keep(Leg(e, 0)), (e: Entry) => value(Leg(e, 0)))
          + SumOver(ledger, (e: Entry) => keep(Leg(e, 1)), (e: Entry) => value(Leg(e, 1)))
  {
    if ledger != [] {
      var front, e := ledger[..|ledger| - 1], ledger[|ledger| - 1];
      LegSums(front, keep, value);
      var legs := Legs(ledger);
      assert legs == Legs(front) + [Leg(e, 0)] + [Leg(e, 1)];
      SumOverSnoc(Legs(front) + [Leg(e, 0)], Leg(e, 1), keep, value);
      SumOverSnoc(Legs(front), Leg(e, 0), keep, value);
    }
  }

  lemma {:induction false} SumOverSnoc<T(!new)>(rows: seq<T>, x: T, keep: T -> bool, value: T -> int)
    ensures SumOver(rows + [x], keep, value) == SumOver(rows, keep, value) + if keep(x) then value(x) else 0
  {
    assert (rows + [x])[..|rows|] == rows;
  }

  /** An entry's part in a column, read directly: income and expenses by their flow amount and
      own currency; a transfer leaves in its currency and arrives in the target's. */
  predicate CountsIn(e: Entry, c: Column, currency: string, f: Filters, included: Id -> bool) {
    && Selected(e, f, included)
    && match c
       case IncomeSum => e.entryType == Income && e.currency == currency
       case ExpenseSum => e.entryType == Expense && e.currency == currency
       case TransfersOut => e.entryType == Transfer && e.currency == currency && InAccounts(e.account, f)
       case TransfersIn =>
         && e.entryType == Transfer && InAccounts(e.toAccount, f)
         && currency == if e.toCurrency.Some? then e.toCurrency.value else e.currency
  }

  function PartOf(e: Entry, c: Column): int {
    match c
    case IncomeSum => e.flowAmount
    case ExpenseSum => e.flowAmount
    case TransfersOut => e.amount
    case TransfersIn => if e.toAmount.Some? then e.toAmount.value else e.amount
  }

  /** The two-leg query yields, per currency and column, the plain sum over the entries that
      count there. */
  lemma TotalsAreEntrySums(ledger: seq<Entry>, f: Filters, included: Id -> bool, totals: seq<Group<string>>,
                           currency: string, c: Column)
    requires IsReportTotals(totals, ledger, f, included)
    ensures Across(totals, (k: string) => k == currency, c)
         == SumOver(ledger, (e: Entry) => CountsIn(e, c, currency, f, included), (e: Entry) => PartOf(e, c))
  {
    var picked := (l: Leg) => Counted(l, f, included) && CurrencyOf(l) == currency;
    var value := (l: Leg) => Value(l, c, f);
    var n := if c == TransfersIn then 1 else 0;
    hide Selected;
    hide IsGrouping;
    GroupingAcross(totals, Legs(ledger), (l: Leg) => Counted(l, f, included), CurrencyOf, f, (k: string) => k == currency, picked, c);
    LegSums(ledger, picked, value);
    var counts, part := (e: Entry) => CountsIn(e, c, currency, f, included), (e: Entry) => PartOf(e, c);
    forall i | 0 <= i < |ledger|
      ensures (if picked(Leg(ledger[i], n)) then value(Leg(ledger[i], n)) else 0) == if counts(ledger[i]) then part(ledger[i]) else 0
      ensures picked(Leg(ledger[i], 1 - n)) ==> value(Leg(ledger[i], 1 - n)) == 0
    {
      EntryParts(ledger[i], f, included, currency, c);
    }
    hide *;
    SameSum(ledger, (e: Entry) => picked(Leg(e, n)), (e: Entry) => value(Leg(e, n)), counts, part);
    SameSum(ledger, (e: Entry) => picked(Leg(e, 1 - n)), (e: Entry) => value(Leg(e, 1 - n)), (e: Entry) => false, part);
    NothingKept(ledger, (e: Entry) => false, part);
  }

  lemma EntryParts(e: Entry, f: Filters, included: Id -> bool, currency: string, c: Column)
    ensures var n := if c == TransfersIn then 1 else 0;
            && (if Counted(Leg(e, n), f, included) && CurrencyOf(Leg(e, n)) == currency then Value(Leg(e, n), c, f) else 0)
               == (if CountsIn(e, c, currency, f, included) then PartOf(e, c) else 0)
            && Value(Leg(e, 1 - n), c, f) == 0
  {
    hide Selected;
    hide InAccounts;
  }

  lemma {:induction false} SameSum<T(!new)>(rows: seq<T>, p: T -> bool, v: T -> int, q: T -> bool, w: T -> int)
    requires forall i | 0 <= i < |rows| :: (if p(rows[i]) then v(rows[i]) else 0) == (if q(rows[i]) then w(rows[i]) else 0)
    ensures SumOver(rows, p, v) == SumOver(rows, q, w)
  {
    if rows != [] {
      SameSum(rows[..|rows| - 1], p, v, q, w);
    }
  }

  // ----- account balances and movements

  /** One account's side of an entry. */
  datatype Move = Move(user: Id, account: Option<Id>, currency: Option<string>, delta: Option<int>, at: Option<int>)

  function OwnMove(e: Entry): Move { Move(e.user, e.account, Some(e.currency), e.accountAmount, e.occurredAt) }

  function TargetMove(e: Entry): Move { Move(e.user, e.toAccount, e.toCurrency, e.toAccountAmount, e.occurredAt) }

  /** UNION ALL of the entries' account and to-account sides. */
  function Moves(ledger: seq<Entry>): (r: seq<Move>)
    ensures |r| == 2 * |ledger|
  {
    seq(|ledger|, i requires 0 <= i < |ledger| => OwnMove(ledger[i]))
    + seq(|ledger|, i requires 0 <= i < |ledger| => TargetMove(ledger[i]))
  }

  predicate Of(m: Move, user: Id, account: Id, currency: Option<string>) {
    m.user == user && m.account == Some(account) && m.currency == currency && m.delta.Some?
  }

  function DeltaOf(m: Move): int { if m.delta.Some? then m.delta.value else 0 }

  predicate Until(at: Option<int>, until: Option<int>) { until.None? || (at.Some? && at.value < until.value) }

  predicate From(at: Option<int>, from: Option<int>) { from.None? || (at.Some? && at.value >= from.value) }

  /** AccountBalances: the total it reports for an account and currency, zero without a row;
      `live` is whether the account is the user's and not deleted. */
  function Balance(ledger: seq<Entry>, user: Id, live: bool, account: Id, currency: Option<string>,
                   until: Option<int>): int {
    if live then SumOver(Moves(ledger), (m: Move) => Of(m, user, account, currency) && Until(m.at, until), DeltaOf) else 0
  }

  /** AccountMovements: inflow and outflow of an account in a currency. */
  function Inflow(ledger: seq<Entry>, user: Id, account: Id, currency: Option<string>, from: Option<int>,
                  until: Option<int>): int {
    SumOver(Moves(ledger), (m: Move) => Of(m, user, account, currency) && From(m.at, from) && Until(m.at, until) && DeltaOf(m) > 0, DeltaOf)
  }

  function Outflow(ledger: seq<Entry>, user: Id, account: Id, currency: Option<string>, from: Option<int>,
                   until: Option<int>): int {
    -SumOver(Moves(ledger), (m: Move) => Of(m, user, account, currency) && From(m.at, from) && Until(m.at, until) && DeltaOf(m) < 0, DeltaOf)
  }

  /** Inflow less outflow is the sum of all movements. */
  lemma NetFlow(ledger: seq<Entry>, user: Id, account: Id, currency: Option<string>, from: Option<int>,
                until: Option<int>)
    ensures Inflow(ledger, user, account, currency, from, until) - Outflow(ledger, user, account, currency, from, until)
         == SumOver(Moves(ledger), (m: Move) => Of(m, user, account, currency) && From(m.at, from) && Until(m.at, until), DeltaOf)
  {
    var moves := Moves(ledger);
    var all := (m: Move) => Of(m, user, account, currency) && From(m.at, from) && Until(m.at, until);
    var pos := (m: Move) => Of(m, user, account, currency) && From(m.at, from) && Until(m.at, until) && DeltaOf(m) > 0;
    var neg := (m: Move) => Of(m, user, account, currency) && From(m.at, from) && Until(m.at, until) && DeltaOf(m) < 0;
    var either := (m: Move) => pos(m) || neg(m);
    SumOverSplit(moves, either, pos, neg, DeltaOf);
    SumOverSame(moves, either, all, DeltaOf);
  }

  /** Movements over [from, until) are the difference of the balances at its ends. */
  lemma MovementsAreBalanceDifferences(ledger: seq<Entry>, user: Id, account: Id, currency: Option<string>,
                                       from: int, until: int)
    requires from <= until
    ensures Inflow(ledger, user, account, currency, Some(from), Some(until)) - Outflow(ledger, user, account, currency, Some(from), Some(until))
         == Balance(ledger, user, true, account, currency, Some(until)) - Balance(ledger, user, true, account, currency, Some(from))
  {
    NetFlow(ledger, user, account, currency, Some(from), Some(until));
    var before := (m: Move) => Of(m, user, account, currency) && Until(m.at, Some(from));
    var during := (m: Move) => Of(m, user, account, currency) && From(m.at, Some(from)) && Until(m.at, Some(until));
    var whole := (m: Move) => Of(m, user, account, currency) && Until(m.at, Some(until));
    SumOverSplit(Moves(ledger), whole, before, during, DeltaOf);
  }

  // ----- what the account queries mean

  /** What an entry does to an account in a currency: as the account it is booked on, and as the
      target of a transfer. A NULL amount does nothing. */
  function OnAccount(e: Entry, account: Id, currency: Option<string>): int {
    if e.account == Some(account) && currency == Some(e.currency) && e.accountAmount.Some? then e.accountAmount.value else 0
  }

  function OnTarget(e: Entry, account: Id, currency: Option<string>): int {
    if e.toAccount == Some(account) && currency == e.toCurrency && e.toAccountAmount.Some? then e.toAccountAmount.value else 0
  }

  /** The entries of a user with a time in [from, until); planned ones have no time. */
  predicate Within(e: Entry, user: Id, from: Option<int>, until: Option<int>) {
    && e.user == user
    && (from.Some? ==> e.occurredAt.Some? && from.value <= e.occurredAt.value)
    && (until.Some? ==> e.occurredAt.Some? && e.occurredAt.value < until.value)
  }

  lemma {:induction false} SumOverAppend<T(!new)>(rows: seq<T>, more: seq<T>, keep: T -> bool, value: T -> int)
    ensures SumOver(rows + more, keep, value) == SumOver(rows, keep, value) + SumOver(more, keep, value)
  {
    if more == [] {
      assert rows + more == rows;
    } else {
      var n := |more| - 1;
      SumOverAppend(rows, more[..n], keep, value);
      assert rows + more == (rows + more[..n]) + [more[n]];
      SumOverSnoc(rows + more[..n], more[n], keep, value);
    }
  }

  /** What the two sides of an entry add to a sum over the sides kept. */
  function Sides(keep: Move -> bool): Entry -> int {
    (e: Entry) => (if keep(OwnMove(e)) then DeltaOf(OwnMove(e)) else 0) + (if keep(TargetMove(e)) then DeltaOf(TargetMove(e)) else 0)
  }

  lemma {:induction false} MoveSums(ledger: seq<Entry>, keep: Move -> bool, every: Entry -> bool)
    requires forall e :: every(e)
    ensures SumOver(Moves(ledger), keep, DeltaOf) == SumOver(ledger, every, Sides(keep))
  {
    if ledger != [] {
      var front, e, n := ledger[..|ledger| - 1], ledger[|ledger| - 1], |ledger| - 1;
      MoveSums(front, keep, every);
      var own, target := Moves(front)[..n], Moves(front)[n..];
      assert Moves(front) == own + target;
      assert Moves(ledger) == (own + [OwnMove(e)]) + (target + [TargetMove(e)]);
      SumOverAppend(own + [OwnMove(e)], target + [TargetMove(e)], keep, DeltaOf);
      SumOverAppend(own, target, keep, DeltaOf);
      SumOverSnoc(own, OwnMove(e), keep, DeltaOf);
      SumOverSnoc(target, TargetMove(e), keep, DeltaOf);
    }
  }

  /** A sum over the sides of the entries that is, entry by entry, a sum over the entries. */
  lemma {:induction false} SidesToEntries(ledger: seq<Entry>, keep: Move -> bool, picked: Entry -> bool, part: Entry -> int)
    requires forall e: Entry :: Sides(keep)(e) == if picked(e) then part(e) else 0
    ensures SumOver(Moves(ledger), keep, DeltaOf) == SumOver(ledger, picked, part)
  {
    var every := (e: Entry) => true;
    MoveSums(ledger, keep, every);
    hide Moves;
    hide Sides;
    SameSum(ledger, every, Sides(keep), picked, part);
  }

  /** A balance is the plain sum, over the user's entries before the date, of what each does to
      the account in that currency. */
  lemma {:induction false} BalanceIsEntrySum(ledger: seq<Entry>, user: Id, live: bool, account: Id, currency: Option<string>, until: Option<int>)
    ensures Balance(ledger, user, live, account, currency, until) ==
              if !live then 0
              else SumOver(ledger, (e: Entry) => Within(e, user, None, until),
                           (e: Entry) => OnAccount(e, account, currency) + OnTarget(e, account, currency))
  {
    var keep := (m: Move) => Of(m, user, account, currency) && Until(m.at, until);
    var within := (e: Entry) => Within(e, user, None, until);
    var part := (e: Entry) => OnAccount(e, account, currency) + OnTarget(e, account, currency);
    forall e: Entry
      ensures Sides(keep)(e) == if within(e) then part(e) else 0
    {
      assert keep(OwnMove(e)) <==> within(e) && Of(OwnMove(e), user, account, currency);
      assert keep(TargetMove(e)) <==> within(e) && Of(TargetMove(e), user, account, currency);
    }
    SidesToEntries(ledger, keep, within, part);
  }

  /** Inflow is the sum of what entries in the period add to the account, outflow of what they
      take from it, the two sides of an entry counted apart. */
  lemma {:induction false} InflowIsEntrySum(ledger: seq<Entry>, user: Id, account: Id, currency: Option<string>,
                                              from: Option<int>, until: Option<int>)
    ensures Inflow(ledger, user, account, currency, from, until)
         == SumOver(ledger, (e: Entry) => Within(e, user, from, until),
                    (e: Entry) => Max(OnAccount(e, account, currency), 0) + Max(OnTarget(e, account, currency), 0))
  {
    var keep := (m: Move) => Of(m, user, account, currency) && From(m.at, from) && Until(m.at, until) && DeltaOf(m) > 0;
    var within := (e: Entry) => Within(e, user, from, until);
    var part := (e: Entry) => Max(OnAccount(e, account, currency), 0) + Max(OnTarget(e, account, currency), 0);
    forall e: Entry
      ensures Sides(keep)(e) == if within(e) then part(e) else 0
    {
      assert keep(OwnMove(e)) <==> within(e) && Of(OwnMove(e), user, account, currency) && DeltaOf(OwnMove(e)) > 0;
      assert keep(TargetMove(e)) <==> within(e) && Of(TargetMove(e), user, account, currency) && DeltaOf(TargetMove(e)) > 0;
    }
    SidesToEntries(ledger, keep, within, part);
  }

  lemma {:induction false} OutflowIsEntrySum(ledger: seq<Entry>, user: Id, account: Id, currency: Option<string>,
                                               from: Option<int>, until: Option<int>)
    ensures Outflow(ledger, user, account, currency, from, until)
         == SumOver(ledger, (e: Entry) => Within(e, user, from, until),
                    (e: Entry) => Max(-OnAccount(e, account, currency), 0) + Max(-OnTarget(e, account, currency), 0))
  {
    var keep := (m: Move) => Of(m, user, account, currency) && From(m.at, from) && Until(m.at, until) && DeltaOf(m) < 0;
    var within := (e: Entry) => Within(e, user, from, until);
    var lost := (e: Entry) => Max(-OnAccount(e, account, currency), 0) + Max(-OnTarget(e, account, currency), 0);
    var gained := (e: Entry) => -lost(e);
    forall e: Entry
      ensures Sides(keep)(e) == if within(e) then gained(e) else 0
    {
      assert keep(OwnMove(e)) <==> within(e) && Of(OwnMove(e), user, account, currency) && DeltaOf(OwnMove(e)) < 0;
      assert keep(TargetMove(e)) <==> within(e) && Of(TargetMove(e), user, account, currency) && DeltaOf(TargetMove(e)) < 0;
    }
    SidesToEntries(ledger, keep, within, gained);
    SumOverNegated(ledger, within, lost, gained);
    hide SumOver;
    hide Within;
    hide OnAccount;
    hide OnTarget;
  }

  lemma {:induction false} SumOverNegated<T(!new)>(rows: seq<T>, keep: T -> bool, value: T -> int, negated: T -> int)
    requires forall x :: negated(x) == -value(x)
    ensures SumOver(rows, keep, negated) == -SumOver(rows, keep, value)
  {
    if rows != [] {
      SumOverNegated(rows[..|rows| - 1], keep, value, negated);
    }
  }
}
