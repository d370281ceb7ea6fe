/** Greedy settlement of a group's balances (internal/debts/simplify.go). */
module Debts {
  import opened Entities
  import opened Numbers
  import opened Sorting

  datatype Balance = Balance(user: UserId, amount: int)
  datatype Entry = Entry(id: UserId, amount: int)
  datatype Debt = Debt(from: UserId, to: UserId, amount: int)

  /** Largest amount first, equal amounts by user id. */
  function Before(): (Entry, Entry) -> bool {
    (a: Entry, b: Entry) => if a.amount != b.amount then a.amount > b.amount else a.id < b.id
  }

  function Creditors(balances: seq<Balance>): (r: seq<Entry>)
    ensures forall i | 0 <= i < |r| :: r[i].amount > 0
  {
    if balances == [] then []
    else
      var b := balances[|balances| - 1];
      Creditors(balances[..|balances| - 1]) + if b.amount > 0 then [Entry(b.user, b.amount)] else []
  }

  function Debtors(balances: seq<Balance>): (r: seq<Entry>)
    ensures forall i | 0 <= i < |r| :: r[i].amount > 0
  {
    if balances == [] then []
    else
      var b := balances[|balances| - 1];
      Debtors(balances[..|balances| - 1]) + if b.amount < 0 then [Entry(b.user, -b.amount)] else []
  }

  ghost predicate Positive(es: seq<Entry>) {
    forall i | 0 <= i < |es| :: es[i].amount > 0
  }

  /** What is left of `es` after its first entry is reduced by `amount`. */
  function Reduce(es: seq<Entry>, amount: int): (r: seq<Entry>)
    requires es != []
    ensures |es| - 1 <= |r| <= |es|
  {
    if es[0].amount == amount then es[1..] else [Entry(es[0].id, es[0].amount - amount)] + es[1..]
  }

  /** The edges of the two-pointer walk from here on. */
  function Settle(cs: seq<Entry>, ds: seq<Entry>): seq<Debt>
    decreases |cs| + |ds|
  {
    if cs == [] || ds == [] then []
    else
      var amount := Min(cs[0].amount, ds[0].amount);
      [Debt(ds[0].id, cs[0].id, amount)] + Settle(Reduce(cs, amount), Reduce(ds, amount))
  }

  /** Creditors and debtors the walk leaves over; one of the two lists is empty. */
  function Rest(cs: seq<Entry>, ds: seq<Entry>): (r: (seq<Entry>, seq<Entry>))
    ensures r.0 == [] || r.1 == []
    decreases |cs| + |ds|
  {
    if cs == [] || ds == [] then (cs, ds)
    else
      var amount := Min(cs[0].amount, ds[0].amount);
      Rest(Reduce(cs, amount), Reduce(ds, amount))
  }

  /** What `Simplify` returns while no balance is the smallest int64 (see DebtsInt64). */
  function Simplified(balances: seq<Balance>): seq<Debt> {
    Settle(SortBy(Creditors(balances), Before()), SortBy(Debtors(balances), Before()))
  }

  // ----- in int64

  /** Debtors as the code has them: `-b.Amount` of the smallest int64 is that number again. */
  function Owing(balances: seq<Balance>): seq<Entry> {
    if balances == [] then []
    else
      var b := balances[|balances| - 1];
      Owing(balances[..|balances| - 1]) + if b.amount < 0 then [Entry(b.user, Wrap(-b.amount))] else []
  }

  function Remaining(es: seq<Entry>, amount: int): (r: seq<Entry>)
    requires es != []
    ensures |es| - 1 <= |r| <= |es|
  {
    if es[0].amount == amount then es[1..] else [Entry(es[0].id, Wrap(es[0].amount - amount))] + es[1..]
  }

  /** The edges of the two-pointer walk on int64 amounts of any sign. */
  function Walked(cs: seq<Entry>, ds: seq<Entry>): seq<Debt>
    decreases |cs| + |ds|
  {
    if cs == [] || ds == [] then []
    else
      var amount := Min(cs[0].amount, ds[0].amount);
      [Debt(ds[0].id, cs[0].id, amount)] + Walked(Remaining(cs, amount), Remaining(ds, amount))
  }

  /** What `Simplify` returns. */
  function Suggested(balances: seq<Balance>): seq<Debt> {
    Walked(SortBy(Creditors(balances), Before()), SortBy(Owing(balances), Before()))
  }

  ghost predicate AllInt64(es: seq<Entry>) {
    forall i | 0 <= i < |es| :: InInt64(es[i].amount)
  }

  // ----- the method

  lemma BeforeOrders(es: seq<Entry>)
    ensures StrictWeakOrder(es, Before()) && NeverTies(es, Before())
  {
  }

  /** Both lists sorted the way `sort.Slice` leaves them. */
  method SortEntries(es: seq<Entry>) returns (a: array<Entry>)
    ensures fresh(a) && a[..] == SortBy(es, Before())
  {
    a := new Entry[|es|](i requires 0 <= i < |es| => es[i]);
    assert a[..] == es;
    BeforeOrders(es);
    SortSlice(a, Before());
    SortBySorted(es, Before());
    BeforeOrders(a[..]);
    SortedUnique(a[..], SortBy(es, Before()), Before());
  }

  method Simplify(balances: seq<Balance>) returns (debts: seq<Debt>)
    requires forall i | 0 <= i < |balances| :: InInt64(balances[i].amount)
    ensures debts == Suggested(balances)
  {
    var creditors, debtors := [], [];
    for i := 0 to |balances|
      invariant creditors == Creditors(balances[..i]) && AllInt64(creditors)
      invariant debtors == Owing(balances[..i]) && AllInt64(debtors)
    {
      var b := balances[i];
      assert balances[..i + 1][..i] == balances[..i];
      hide Wrap;
      if b.amount > 0 {
        creditors := creditors + [Entry(b.user, b.amount)];
      } else if b.amount < 0 {
        debtors := debtors + [Entry(b.user, Wrap(-b.amount))];
      }
    }
    assert balances[..|balances|] == balances;
    hide Creditors;
    hide Owing;
    var cs := SortEntries(creditors);
    var ds := SortEntries(debtors);
    SortedStaysInt64(creditors);
    SortedStaysInt64(debtors);
    debts := Walk(cs, ds);
  }

  lemma {:induction false} SortedStaysInt64(es: seq<Entry>)
    requires AllInt64(es)
    ensures AllInt64(SortBy(es, Before()))
  {
    var s := SortBy(es, Before());
    MembersAgree(es, s);
    forall i | 0 <= i < |s|
      ensures InInt64(s[i].amount)
    {
      assert s[i] in es;
    }
  }

  /** Takes `amt` off the entry at `i`, in place, and moves past it when nothing is left. */
  method Pay(a: array<Entry>, i: nat, amt: Int64) returns (next: nat)
    requires i < a.Length && AllInt64(a[i..])
    modifies a
    ensures i <= next <= i + 1 && next <= a.Length
    ensures next == i + 1 <==> old(a[i].amount) == amt
    ensures a[next..] == Remaining(old(a[i..]), amt) && AllInt64(a[next..])
  {
    ghost var before := a[i..];
    assert InInt64(before[0].amount);
    a[i] := Entry(a[i].id, Wrap(a[i].amount - amt));
    WrapZero(before[0].amount, amt);
    hide Wrap;
    assert a[i..] == before[0 := Entry(before[0].id, Wrap(before[0].amount - amt))];
    next := i;
    if a[i].amount == 0 {
      next := i + 1;
    }
  }

  lemma WrapZero(x: int, y: int)
    requires InInt64(x) && InInt64(y)
    ensures Wrap(x - y) == 0 <==> x == y
  {
  }

  /** The two-pointer loop: amounts are decremented in place. */
  method Walk(cs: array<Entry>, ds: array<Entry>) returns (debts: seq<Debt>)
    requires cs != ds && AllInt64(cs[..]) && AllInt64(ds[..])
    modifies cs, ds
    ensures debts == Walked(old(cs[..]), old(ds[..]))
  {
    hide Remaining;
    hide Walked;
    debts := [];
    var i, j := 0, 0;
    ghost var all := Walked(cs[..], ds[..]);
    assert cs[0..] == cs[..] && ds[0..] == ds[..];
    while i < cs.Length && j < ds.Length
      invariant 0 <= i <= cs.Length && 0 <= j <= ds.Length
      invariant AllInt64(cs[i..]) && AllInt64(ds[j..])
      invariant debts + Walked(cs[i..], ds[j..]) == all
      decreases cs.Length + ds.Length - i - j
    {
      ghost var restCs, restDs := cs[i..], ds[j..];
      assert restCs[0] == cs[i] && restDs[0] == ds[j];
      var amt := cs[i].amount;
      if ds[j].amount < amt {
        amt := ds[j].amount;
      }
      var debt := Debt(ds[j].id, cs[i].id, amt);
      WalkedStep(restCs, restDs, amt);
      debts := debts + [debt];
      i := Pay(cs, i, amt);
      j := Pay(ds, j, amt);
    }
    WalkedOut(cs[i..], ds[j..]);
  }

  lemma {:induction false} WalkedStep(cs: seq<Entry>, ds: seq<Entry>, amount: int)
    requires cs != [] && ds != [] && amount == Min(cs[0].amount, ds[0].amount)
    ensures Walked(cs, ds) == [Debt(ds[0].id, cs[0].id, amount)] + Walked(Remaining(cs, amount), Remaining(ds, amount))
  {
  }

  lemma {:induction false} WalkedOut(cs: seq<Entry>, ds: seq<Entry>)
    requires cs == [] || ds == []
    ensures Walked(cs, ds) == []
  {
  }

  lemma {:induction false} SortedStaysPositive(es: seq<Entry>)
    requires Positive(es)
    ensures Positive(SortBy(es, Before()))
  {
    var s := SortBy(es, Before());
    MembersAgree(es, s);
    forall i | 0 <= i < |s|
      ensures s[i].amount > 0
    {
      assert s[i] in es;
    }
  }
}
