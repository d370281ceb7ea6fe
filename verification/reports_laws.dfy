/** What the filters of the reports mean, and where each entry of a ledger ends up. */
module ReportsLaws {
  import opened Options
  import opened Reports

  // ----- what is reported without a filter

  function Unfiltered(user: Id, planned: Planned): Filters {
    Filters(user, planned, None, None, {}, {}, {}, {}, {}, {}, false, {}, {}, {}, (e: Entry) => true, None, None)
  }

  /** Without a filter: the user's transfers, and incomes and expenses with a flow, save
      adjustments, loans and transactions on accounts left out of the balance. */
  lemma UnfilteredEntries(e: Entry, user: Id, planned: Planned, included: Id -> bool)
    ensures Selected(e, Unfiltered(user, planned), included) <==>
              && e.user == user && !(e.source in {"ADJUSTMENT", "LOAN"})
              && (planned == OnlyPlanned ==> e.occurredAt.None?) && (planned == NotPlanned ==> e.occurredAt.Some?)
              && (e.entryType == Transfer
                  || ((e.entryType == Income || e.entryType == Expense) && e.flowAmount >= 1
                      && !(e.kind == "TRANSACTION" && e.account.Some? && !included(e.account.value))))
  {
  }

  /** Filtering by accounts selects what touches one of them, and that also where the account is
      left out of the balance. */
  lemma AccountFilter(e: Entry, f: Filters, accounts: set<Id>, included: Id -> bool)
    requires f.accounts == {} && accounts != {}
    ensures Selected(e, f.(accounts := accounts), included) <==>
              && ((e.account.Some? && e.account.value in accounts) || (e.toAccount.Some? && e.toAccount.value in accounts))
              && Selected(e, f, (id: Id) => true)
  {
  }

  /** A period selects by the time an entry happened, or by the time it is due while it has not. */
  lemma PeriodFilter(e: Entry, f: Filters, from: Option<int>, until: Option<int>, included: Id -> bool)
    ensures Selected(e, f.(from := from, until := until), included) <==>
              && Selected(e, f.(from := None, until := None), included)
              && ((from.None? && until.None?) || e.occurredAt.Some? || e.dueAt.Some?)
              && (e.occurredAt.Some? ==> InPeriod(e.occurredAt.value, from, until))
              && (e.occurredAt.None? && e.dueAt.Some? ==> InPeriod(e.dueAt.value, from, until))
  {
  }

  predicate InPeriod(t: int, from: Option<int>, until: Option<int>) {
    (from.Some? ==> from.value <= t) && (until.Some? ==> t < until.value)
  }

  lemma TextFilter(e: Entry, f: Filters, text: Entry -> bool, included: Id -> bool)
    ensures Selected(e, f.(text := text), included) <==> text(e) && Selected(e, f.(text := (x: Entry) => true), included)
  {
  }

  // ----- every other filter splits a report in two

  /** A way to split what a filter lets through. */
  datatype Cut =
    | ByTime(at: int)
    | ByPlan
    | ByKinds(kinds: set<string>)
    | ByTypes(types: set<EntryType>)
    | BySources(sources: set<string>)
    | ByExcluding(source: string)
    | ByCategories(categories: set<Id>)
    | ByNoCategory
    | ByGroups(groups: set<Id>)
    | ByTag(tag: Id)
    | ByAmount(most: int)

  /** The cut lies within the filter. */
  predicate Cuts(f: Filters, cut: Cut) {
    match cut
    case ByTime(at) =>
      && (f.from.Some? || f.until.Some?)
      && (f.from.Some? ==> f.from.value <= at) && (f.until.Some? ==> at <= f.until.value)
    case ByPlan => f.planned == WithPlanned
    case ByKinds(kinds) => {} < kinds < f.kinds
    case ByTypes(types) => {} < types < f.types
    case BySources(sources) => {} < sources < f.sources
    case ByExcluding(source) => f.sources == {}
    case ByCategories(categories) => {} < categories < f.categories && !f.categoryNone
    case ByNoCategory => f.categories != {} && f.categoryNone
    case ByGroups(groups) => {} < groups < f.groups
    case ByTag(tag) => f.tags == {}
    case ByAmount(most) => (f.min.Some? ==> f.min.value <= most) && (f.max.Some? ==> most < f.max.value)
  }

  function One(f: Filters, cut: Cut): Filters {
    match cut
    case ByTime(at) => f.(until := Some(at))
    case ByPlan => f.(planned := OnlyPlanned)
    case ByKinds(kinds) => f.(kinds := kinds)
    case ByTypes(types) => f.(types := types)
    case BySources(sources) => f.(sources := sources)
    case ByExcluding(source) => f.(sources := {source})
    case ByCategories(categories) => f.(categories := categories)
    case ByNoCategory => f.(categories := {})
    case ByGroups(groups) => f.(groups := groups)
    case ByTag(tag) => f.(tags := {tag})
    case ByAmount(most) => f.(max := Some(most))
  }

  function Other(f: Filters, cut: Cut): Filters {
    match cut
    case ByTime(at) => f.(from := Some(at))
    case ByPlan => f.(planned := NotPlanned)
    case ByKinds(kinds) => f.(kinds := f.kinds - kinds)
    case ByTypes(types) => f.(types := f.types - types)
    case BySources(sources) => f.(sources := f.sources - sources)
    case ByExcluding(source) => f.(exclSources := f.exclSources + {source})
    case ByCategories(categories) => f.(categories := f.categories - categories)
    case ByNoCategory => f.(categoryNone := false)
    case ByGroups(groups) => f.(groups := f.groups - groups)
    case ByTag(tag) => f.(exclTags := f.exclTags + {tag})
    case ByAmount(most) => f.(min := Some(most + 1))
  }

  /** Every selected entry falls in just one of the two parts. */
  lemma CutsSplit(e: Entry, f: Filters, cut: Cut, included: Id -> bool)
    requires Cuts(f, cut)
    ensures Selected(e, f, included) == (Selected(e, One(f, cut), included) || Selected(e, Other(f, cut), included))
    ensures !(Selected(e, One(f, cut), included) && Selected(e, Other(f, cut), included))
  {
    match cut
    case ByTime(at) => TimesSplit(e, f, at, included);
    case ByPlan =>
    case ByKinds(_) => SetsSplit(e, f, cut, included);
    case ByTypes(_) => SetsSplit(e, f, cut, included);
    case BySources(_) => SetsSplit(e, f, cut, included);
    case ByExcluding(_) =>
    case ByCategories(categories) => CategoriesSplit(e, f, categories, included);
    case ByNoCategory =>
    case ByGroups(groups) => GroupsSplit(e, f, groups, included);
    case ByTag(tag) => TagsSplit(e, f, tag, included);
    case ByAmount(_) =>
  }

  lemma TimesSplit(e: Entry, f: Filters, at: int, included: Id -> bool)
    requires Cuts(f, ByTime(at))
    ensures var g, h := f.(until := Some(at)), f.(from := Some(at));
            && Selected(e, f, included) == (Selected(e, g, included) || Selected(e, h, included))
            && !(Selected(e, g, included) && Selected(e, h, included))
  {
  }

  lemma SetsSplit(e: Entry, f: Filters, cut: Cut, included: Id -> bool)
    requires Cuts(f, cut) && (cut.ByKinds? || cut.ByTypes? || cut.BySources?)
    ensures Selected(e, f, included) == (Selected(e, One(f, cut), included) || Selected(e, Other(f, cut), included))
    ensures !(Selected(e, One(f, cut), included) && Selected(e, Other(f, cut), included))
  {
    match cut
    case ByKinds(kinds) => assert f.kinds - kinds != {};
    case ByTypes(types) => assert f.types - types != {};
    case BySources(sources) => assert f.sources - sources != {};
  }

  lemma CategoriesSplit(e: Entry, f: Filters, categories: set<Id>, included: Id -> bool)
    requires Cuts(f, ByCategories(categories))
    ensures var g, h := f.(categories := categories), f.(categories := f.categories - categories);
            && Selected(e, f, included) == (Selected(e, g, included) || Selected(e, h, included))
            && !(Selected(e, g, included) && Selected(e, h, included))
  {
    assert f.categories - categories != {};
  }

  lemma GroupsSplit(e: Entry, f: Filters, groups: set<Id>, included: Id -> bool)
    requires Cuts(f, ByGroups(groups))
    ensures var g, h := f.(groups := groups), f.(groups := f.groups - groups);
            && Selected(e, f, included) == (Selected(e, g, included) || Selected(e, h, included))
            && !(Selected(e, g, included) && Selected(e, h, included))
  {
    assert f.groups - groups != {};
  }

  lemma TagsSplit(e: Entry, f: Filters, tag: Id, included: Id -> bool)
    requires f.tags == {}
    ensures var g, h := f.(tags := {tag}), f.(exclTags := f.exclTags + {tag});
            && Selected(e, f, included) == (Selected(e, g, included) || Selected(e, h, included))
            && !(Selected(e, g, included) && Selected(e, h, included))
  {
    assert e.tags * {tag} == if tag in e.tags then {tag} else {};
    assert e.tags * (f.exclTags + {tag}) == e.tags * f.exclTags + e.tags * {tag};
  }

  /** So reports are additive: over adjacent periods, planned and settled entries, disjoint kinds,
      types, sources, categories and groups, with and without a tag, below and above an amount.
      Each column of each currency is the sum of those of the two parts. */
  lemma ReportsAreAdditive(ledger: seq<Entry>, f: Filters, cut: Cut, included: Id -> bool,
                           whole: seq<Group<string>>, one: seq<Group<string>>, other: seq<Group<string>>,
                           currency: string, c: Column)
    requires Cuts(f, cut)
    requires IsReportTotals(whole, ledger, f, included)
    requires IsReportTotals(one, ledger, One(f, cut), included) && IsReportTotals(other, ledger, Other(f, cut), included)
    ensures var at := (k: string) => k == currency;
            Across(whole, at, c) == Across(one, at, c) + Across(other, at, c)
  {
    var g, h := One(f, cut), Other(f, cut);
    var part := (e: Entry) => PartOf(e, c);
    TotalsAreEntrySums(ledger, f, included, whole, currency, c);
    TotalsAreEntrySums(ledger, g, included, one, currency, c);
    TotalsAreEntrySums(ledger, h, included, other, currency, c);
    hide IsReportTotals;
    var all := (e: Entry) => CountsIn(e, c, currency, f, included);
    var left := (e: Entry) => CountsIn(e, c, currency, g, included);
    var right := (e: Entry) => CountsIn(e, c, currency, h, included);
    forall e: Entry
      ensures all(e) == (left(e) || right(e)) && !(left(e) && right(e))
    {
      CutsSplit(e, f, cut, included);
      hide Selected;
    }
    hide *;
    SumOverSplit(ledger, all, left, right, part);
  }

  // ----- rows by account

  /** The account and the currency an entry counts under in a column. */
  predicate Under(e: Entry, c: Column, account: Option<Id>) { account == if c == TransfersIn then e.toAccount else e.account }

  /** In the report by account, each row's columns are the plain sums over the entries that count
      there: incomes, expenses and transfers out under their account, transfers in under the target. */
  lemma ByAccountEntrySums(ledger: seq<Entry>, f: Filters, included: Id -> bool, byAccount: seq<Group<(Option<Id>, string)>>,
                           account: Option<Id>, currency: string, c: Column)
    requires IsReportByAccount(byAccount, ledger, f, included)
    ensures Across(byAccount, (k: (Option<Id>, string)) => k == (account, currency), c)
         == SumOver(ledger, (e: Entry) => CountsIn(e, c, currency, f, included) && Under(e, c, account), (e: Entry) => PartOf(e, c))
  {
    var picked := (l: Leg) => CountedByAccount(l, f, included) && AccountOf(l) == account && CurrencyOf(l) == currency;
    var value := (l: Leg) => Value(l, c, f);
    var n := if c == TransfersIn then 1 else 0;
    var counts := (e: Entry) => CountsIn(e, c, currency, f, included) && Under(e, c, account);
    var part := (e: Entry) => PartOf(e, c);
    hide Selected;
    hide IsGrouping;
    GroupingAcross(byAccount, Legs(ledger), (l: Leg) => CountedByAccount(l, f, included), (l: Leg) => (AccountOf(l), CurrencyOf(l)), f,
                   (k: (Option<Id>, string)) => k == (account, currency), picked, c);
    LegSums(ledger, picked, value);
    forall i | 0 <= i < |ledger|
      ensures (if picked(Leg(ledger[i], n)) then value(Leg(ledger[i], n)) else 0) == if counts(ledger[i]) then part(ledger[i]) else 0
      ensures picked(Leg(ledger[i], 1 - n)) ==> value(Leg(ledger[i], 1 - n)) == 0
    {
      UnderParts(ledger[i], f, included, account, currency, c);
    }
    hide *;
    SameSum(ledger, (e: Entry) => picked(Leg(e, n)), (e: Entry) => value(Leg(e, n)), counts, part);
    SameSum(ledger, (e: Entry) => picked(Leg(e, 1 - n)), (e: Entry) => value(Leg(e, 1 - n)), (e: Entry) => false, part);
    NothingKept(ledger, (e: Entry) => false, part);
  }

  lemma UnderParts(e: Entry, f: Filters, included: Id -> bool, account: Option<Id>, currency: string, c: Column)
    ensures var n := if c == TransfersIn then 1 else 0;
            && (if CountedByAccount(Leg(e, n), f, included) && AccountOf(Leg(e, n)) == account && CurrencyOf(Leg(e, n)) == currency
                then Value(Leg(e, n), c, f) else 0)
               == (if CountsIn(e, c, currency, f, included) && Under(e, c, account) then PartOf(e, c) else 0)
            && Value(Leg(e, 1 - n), c, f) == 0
  {
    hide Selected;
    hide InAccounts;
  }

  /** An account has a row in a currency exactly when a selected entry is booked on it in that
      currency, or is a transfer to it in that currency; with an account filter transfers count
      only on the side the filter names. */
  lemma ByAccountRows(ledger: seq<Entry>, f: Filters, included: Id -> bool, byAccount: seq<Group<(Option<Id>, string)>>,
                      account: Option<Id>, currency: string)
    requires IsReportByAccount(byAccount, ledger, f, included)
    ensures (exists i | 0 <= i < |byAccount| :: byAccount[i].key == (account, currency)) <==>
              exists i | 0 <= i < |ledger| :: HasRow(ledger[i], f, included, account, currency)
  {
    hide Selected;
    if i :| 0 <= i < |byAccount| && byAccount[i].key == (account, currency) {
      RowHasEntry(ledger, f, included, byAccount, i);
    }
    if i :| 0 <= i < |ledger| && HasRow(ledger[i], f, included, account, currency) {
      EntryHasRow(ledger, f, included, byAccount, account, currency, i);
    }
  }

  lemma RowHasEntry(ledger: seq<Entry>, f: Filters, included: Id -> bool, byAccount: seq<Group<(Option<Id>, string)>>, i: nat)
    requires IsReportByAccount(byAccount, ledger, f, included) && i < |byAccount|
    ensures exists j | 0 <= j < |ledger| :: HasRow(ledger[j], f, included, byAccount[i].key.0, byAccount[i].key.1)
  {
    hide *;
    var l := LegOfRow(ledger, f, included, byAccount, i);
    LegIsEntrySide(ledger, f, included, l);
  }

  lemma LegOfRow(ledger: seq<Entry>, f: Filters, included: Id -> bool, byAccount: seq<Group<(Option<Id>, string)>>, i: nat)
    returns (l: Leg)
    requires IsReportByAccount(byAccount, ledger, f, included) && i < |byAccount|
    ensures l in Legs(ledger) && CountedByAccount(l, f, included) && byAccount[i].key == (AccountOf(l), CurrencyOf(l))
  {
    hide CountedByAccount;
    hide Legs;
    hide AccountOf;
    hide CurrencyOf;
    var keep := (l: Leg) => CountedByAccount(l, f, included);
    var key := (l: Leg) => (AccountOf(l), CurrencyOf(l));
    l := LegOfGroup(byAccount, Legs(ledger), keep, key, f, i);
  }

  lemma LegOfGroup<K(!new)>(result: seq<Group<K>>, legs: seq<Leg>, keep: Leg -> bool, key: Leg -> K, f: Filters, i: nat)
    returns (l: Leg)
    requires IsGrouping(result, legs, keep, key, f) && i < |result|
    ensures l in legs && keep(l) && result[i].key == key(l)
  {
    var k := result[i].key;
    assert exists x :: x in legs && keep(x) && k == key(x);
    l :| l in legs && keep(l) && k == key(l);
  }

  lemma LegIsEntrySide(ledger: seq<Entry>, f: Filters, included: Id -> bool, l: Leg)
    requires l in Legs(ledger) && CountedByAccount(l, f, included)
    ensures exists j | 0 <= j < |ledger| :: HasRow(ledger[j], f, included, AccountOf(l), CurrencyOf(l))
  {
    hide Selected;
    var legs := Legs(ledger);
    var j :| 0 <= j < |legs| && legs[j] == l;
    assert HasRow(ledger[j / 2], f, included, AccountOf(l), CurrencyOf(l));
  }

  lemma EntryHasRow(ledger: seq<Entry>, f: Filters, included: Id -> bool, byAccount: seq<Group<(Option<Id>, string)>>,
                    account: Option<Id>, currency: string, i: nat)
    requires IsReportByAccount(byAccount, ledger, f, included) && i < |ledger| && HasRow(ledger[i], f, included, account, currency)
    ensures exists j | 0 <= j < |byAccount| :: byAccount[j].key == (account, currency)
  {
    hide Selected;
    var legs, e := Legs(ledger), ledger[i];
    var keep := (l: Leg) => CountedByAccount(l, f, included);
    var l := Leg(e, if BookedOn(e, f, account, currency) then 0 else 1);
    assert legs[2 * i] == Leg(e, 0) && legs[2 * i + 1] == Leg(e, 1);
    assert l in legs && keep(l) && (AccountOf(l), CurrencyOf(l)) == (account, currency);
  }

  predicate BookedOn(e: Entry, f: Filters, account: Option<Id>, currency: string) {
    && e.account == account && e.currency == currency
    && (e.entryType == Transfer && f.accounts != {} ==> account.Some? && account.value in f.accounts)
  }

  predicate HasRow(e: Entry, f: Filters, included: Id -> bool, account: Option<Id>, currency: string) {
    && Selected(e, f, included)
    && (BookedOn(e, f, account, currency)
        || (e.entryType == Transfer && e.toAccount == account && currency == (if e.toCurrency.Some? then e.toCurrency.value else e.currency)
            && (f.accounts != {} ==> account.Some? && account.value in f.accounts)))
  }
}
