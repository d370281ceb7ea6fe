/** The split rows of a recurring expense, told from its stored definitions. */
module RecurringRows {
  import opened Entities
  import opened Numbers
  import opened Options
  import opened RecurringSplits

  // ----- which definitions, which values

  /** `at` lists the positions of the definitions that pass the test, in their order. */
  ghost predicate Lists(at: seq<nat>, defs: seq<Def>, keep: Def -> bool) {
    && (forall i, j | 0 <= i < j < |at| :: at[i] < at[j])
    && (forall i | 0 <= i < |at| :: at[i] < |defs| && keep(defs[at[i]]))
    && forall d: nat | d < |defs| :: keep(defs[d]) ==> d in at
  }

  lemma ListsMore(at: seq<nat>, init: seq<Def>, d: Def, keep: Def -> bool) returns (more: seq<nat>)
    requires Lists(at, init, keep)
    ensures more == if keep(d) then at + [|init|] else at
    ensures Lists(more, init + [d], keep)
    ensures forall i | 0 <= i < |at| :: at[i] < |init| && (init + [d])[at[i]] == init[at[i]]
  {
    more := if keep(d) then at + [|init|] else at;
    var defs := init + [d];
    forall e: nat | e < |defs| && keep(defs[e])
      ensures e in more
    {
      if e < |init| {
        assert init[e] == defs[e] && e in at;
      } else {
        assert more[|at|] == e;
      }
    }
    forall i | 0 <= i < |more|
      ensures more[i] < |defs| && keep(defs[more[i]])
    {
      if i < |at| { assert defs[at[i]] == init[at[i]]; }
    }
  }

  function Carries(mode: Mode): Def -> bool {
    (d: Def) => d.user.Some? && (if mode == EXACT then d.amount.Some? else d.percentage.Some?)
  }

  function HasUser(): Def -> bool { (d: Def) => d.user.Some? }

  /** `x` is `p` hundredths of the amount: the int64 product, divided by 100 towards zero. */
  ghost predicate Hundredths(amount: int, p: int, x: int) {
    exists w: int :: InInt64(w) && (amount * p - w) % TWO_64 == 0
                     && if w >= 0 then 100 * x <= w < 100 * x + 100 else 100 * x - 100 < w <= 100 * x
  }

  /** So while the product fits, that is the share rounded down. */
  lemma HundredthsPlain(amount: int, p: int, x: int)
    requires 0 <= amount * p < TWO_63
    ensures Hundredths(amount, p, x) <==> 100 * x <= amount * p < 100 * x + 100
  {
    if Hundredths(amount, p, x) {
      var w: int :| InInt64(w) && (amount * p - w) % TWO_64 == 0
                    && if w >= 0 then 100 * x <= w < 100 * x + 100 else 100 * x - 100 < w <= 100 * x;
      assert w == amount * p by {
        WrapIff(amount * p, w);
        WrapIff(amount * p, amount * p);
      }
    }
    if 100 * x <= amount * p < 100 * x + 100 {
      assert InInt64(amount * p) && (amount * p - amount * p) % TWO_64 == 0;
    }
  }

  lemma PercentIsHundredths(amount: int, p: int)
    ensures Hundredths(amount, p, PercentOf(amount, p))
  {
    var w := Wrap(amount * p);
    assert InInt64(w) && (amount * p - w) % TWO_64 == 0;
  }

  ghost predicate IsValue(amount: int, mode: Mode, d: Def, x: int) {
    if mode == EXACT then d.amount == Some(x) else d.percentage.Some? && Hundredths(amount, d.percentage.value, x)
  }

  /** The insert of `x` fails: CHECK, foreign key, or the percentage column. */
  predicate Refused(mode: Mode, d: Def, x: int) {
    x < 0 || x >= TWO_63 || !d.known || (mode == PERCENTAGE && !d.accepted)
  }

  // ----- the rows in the modes that use stored values

  /** `at` and `values`: the definitions that carry a value, in order, with their values. */
  ghost predicate Valued(amount: int, mode: Mode, defs: seq<Def>, at: seq<nat>, values: seq<int>) {
    && Lists(at, defs, Carries(mode)) && |values| == |at|
    && forall i | 0 <= i < |at| :: IsValue(amount, mode, defs[at[i]], values[i])
  }

  ghost predicate AnyRefused(mode: Mode, defs: seq<Def>, at: seq<nat>, values: seq<int>)
    requires |values| == |at| && forall i | 0 <= i < |at| :: at[i] < |defs|
  {
    exists i | 0 <= i < |at| :: Refused(mode, defs[at[i]], values[i])
  }

  ghost predicate AsValued(rows: seq<SplitRow>, defs: seq<Def>, at: seq<nat>, values: seq<int>)
    requires |values| == |at| && forall i | 0 <= i < |at| :: at[i] < |defs| && defs[at[i]].user.Some?
  {
    |rows| == |at| && forall i | 0 <= i < |at| :: rows[i] == SplitRow(defs[at[i]].user.value, values[i])
  }

  lemma {:induction false} Inserts(amount: int, mode: Mode, defs: seq<Def>) returns (at: seq<nat>, values: seq<int>)
    requires mode == EXACT || mode == PERCENTAGE
    ensures Valued(amount, mode, defs, at, values)
    ensures InsertAll(amount, mode, defs).None? <==> AnyRefused(mode, defs, at, values)
    ensures InsertAll(amount, mode, defs).Some? ==> AsValued(InsertAll(amount, mode, defs).value, defs, at, values)
    decreases |defs|
  {
    at, values := [], [];
    if defs != [] {
      var n := |defs| - 1;
      var init, d := defs[..n], defs[n];
      at, values := Inserts(amount, mode, init);
      assert defs == init + [d];
      InsertNext(amount, mode, init, d);
      var x := InsertMeans(amount, mode, d);
      hide *;
      if Carries(mode)(d) {
        CarriedNext(amount, mode, init, d, at, values, x);
        at, values := at + [n], values + [x];
      } else {
        SkippedNext(amount, mode, init, d, at, values);
      }
    }
  }

  lemma {:induction false} InsertNext(amount: int, mode: Mode, init: seq<Def>, d: Def)
    ensures var rows, r := InsertAll(amount, mode, init), Insert(amount, mode, d);
            InsertAll(amount, mode, init + [d]) ==
              if rows.None? || r.Rejected? then None
              else Some(rows.value + match r { case Inserted(row) => [row] case _ => [] })
  {
    hide Insert;
    var defs := init + [d];
    assert defs[..|defs| - 1] == init && defs[|defs| - 1] == d;
    assert InsertAll(amount, mode, init).Some? ==> InsertAll(amount, mode, init).value + [] == InsertAll(amount, mode, init).value;
  }

  /** One definition: skipped without a valid user or a value, rejected when its value is refused. */
  lemma InsertMeans(amount: int, mode: Mode, d: Def) returns (x: int)
    requires mode == EXACT || mode == PERCENTAGE
    ensures Carries(mode)(d) ==> IsValue(amount, mode, d, x)
    ensures Insert(amount, mode, d) ==
              if !Carries(mode)(d) then Skipped else if Refused(mode, d, x) then Rejected else Inserted(SplitRow(d.user.value, x))
  {
    x := 0;
    if Carries(mode)(d) {
      x := if mode == EXACT then d.amount.value else PercentOf(amount, d.percentage.value);
      if mode == PERCENTAGE { PercentIsHundredths(amount, d.percentage.value); }
    }
    hide Hundredths;
    hide PercentOf;
  }

  lemma CarriedNext(amount: int, mode: Mode, init: seq<Def>, d: Def, at: seq<nat>, values: seq<int>, x: int)
    requires Valued(amount, mode, init, at, values) && Carries(mode)(d) && IsValue(amount, mode, d, x)
    ensures var defs, all, xs := init + [d], at + [|init|], values + [x];
            && Valued(amount, mode, defs, all, xs)
            && (AnyRefused(mode, defs, all, xs) <==> AnyRefused(mode, init, at, values) || Refused(mode, d, x))
            && forall rows | AsValued(rows, init, at, values) :: AsValued(rows + [SplitRow(d.user.value, x)], defs, all, xs)
  {
    var defs, xs := init + [d], values + [x];
    var all := ListsMore(at, init, d, Carries(mode));
    hide IsValue;
    hide Refused;
    assert forall i | 0 <= i < |at| :: all[i] == at[i] && xs[i] == values[i] && defs[all[i]] == init[at[i]];
    assert all[|at|] == |init| && xs[|at|] == x && defs[|init|] == d;
    hide Lists;
    RefusedNext(mode, init, d, at, values, x);
  }

  lemma RefusedNext(mode: Mode, init: seq<Def>, d: Def, at: seq<nat>, values: seq<int>, x: int)
    requires |values| == |at| && forall i | 0 <= i < |at| :: at[i] < |init|
    ensures AnyRefused(mode, init + [d], at + [|init|], values + [x]) <==> AnyRefused(mode, init, at, values) || Refused(mode, d, x)
  {
    hide Refused;
    var defs, all, xs := init + [d], at + [|init|], values + [x];
    assert forall i | 0 <= i < |at| :: all[i] == at[i] && xs[i] == values[i] && defs[all[i]] == init[at[i]];
    assert all[|at|] == |init| && xs[|at|] == x && defs[|init|] == d;
    if AnyRefused(mode, init, at, values) {
      var i :| 0 <= i < |at| && Refused(mode, init[at[i]], values[i]);
      assert Refused(mode, defs[all[i]], xs[i]);
    }
    if Refused(mode, d, x) { assert Refused(mode, defs[all[|at|]], xs[|at|]); }
  }

  lemma SkippedNext(amount: int, mode: Mode, init: seq<Def>, d: Def, at: seq<nat>, values: seq<int>)
    requires Valued(amount, mode, init, at, values) && !Carries(mode)(d)
    ensures var defs := init + [d];
            && Valued(amount, mode, defs, at, values)
            && (AnyRefused(mode, defs, at, values) <==> AnyRefused(mode, init, at, values))
            && forall rows | AsValued(rows, init, at, values) :: AsValued(rows + [], defs, at, values)
  {
    var defs := init + [d];
    var all := ListsMore(at, init, d, Carries(mode));
    assert all == at;
    hide IsValue;
    hide Refused;
    hide Lists;
    assert forall i | 0 <= i < |at| :: defs[at[i]] == init[at[i]];
    if AnyRefused(mode, init, at, values) {
      var i :| 0 <= i < |at| && Refused(mode, init[at[i]], values[i]);
      assert Refused(mode, defs[at[i]], values[i]);
    }
    forall rows | AsValued(rows, init, at, values)
      ensures AsValued(rows + [], defs, at, values)
    {
      assert rows + [] == rows;
    }
  }

  /** `first` is the first definition that names a user. */
  predicate FirstNamed(defs: seq<Def>, first: nat) {
    first < |defs| && defs[first].user.Some? && forall i | 0 <= i < first :: defs[i].user.None?
  }

  lemma {:induction false} FirstOfUsers(defs: seq<Def>) returns (first: nat)
    requires Users(defs) != []
    ensures FirstNamed(defs, first) && defs[first].user == Some(Users(defs)[0])
    decreases |defs|
  {
    var init := defs[..|defs| - 1];
    if Users(init) != [] {
      first := FirstOfUsers(init);
    } else {
      first := |defs| - 1;
      NobodyNamed(init);
      assert forall i | 0 <= i < first :: defs[i] == init[i];
    }
  }

  lemma {:induction false} NobodyNamed(defs: seq<Def>)
    ensures Users(defs) == [] <==> forall i | 0 <= i < |defs| :: defs[i].user.None?
  {
    if defs != [] {
      var init, last := defs[..|defs| - 1], defs[|defs| - 1];
      NobodyNamed(init);
      assert forall i | 0 <= i < |init| :: init[i] == defs[i];
    }
  }

  /** What a row comes to: its value, and for the first named user all that is missing. */
  function Topped(amount: int, defs: seq<Def>, at: seq<nat>, values: seq<int>, first: nat, i: nat): int
    requires i < |at| == |values| && at[i] < |defs| && first < |defs|
  {
    values[i] + if defs[at[i]].user == defs[first].user then amount - Sum(values) else 0
  }

  ghost predicate AnyTopUpRefused(amount: int, defs: seq<Def>, at: seq<nat>, values: seq<int>, first: nat)
    requires |values| == |at| && (forall i | 0 <= i < |at| :: at[i] < |defs|) && first < |defs|
  {
    exists i | 0 <= i < |at| :: defs[at[i]].user == defs[first].user && !(0 <= Topped(amount, defs, at, values, first, i) < TWO_63)
  }

  ghost predicate AsTopped(rows: seq<SplitRow>, amount: int, defs: seq<Def>, at: seq<nat>, values: seq<int>, first: nat)
    requires |values| == |at| && (forall i | 0 <= i < |at| :: at[i] < |defs| && defs[at[i]].user.Some?) && first < |defs|
  {
    && |rows| == |at|
    && forall i | 0 <= i < |at| :: rows[i] == SplitRow(defs[at[i]].user.value, Topped(amount, defs, at, values, first, i))
  }

  /** EXACT and PERCENTAGE. One row for each definition with a valid user and a value, in their
      order, and every row of the first named user takes what the values leave of the amount. The
      run fails exactly when a value, their sum or a row so topped up is refused. */
  lemma ValueRows(amount: int, mode: Mode, defs: seq<Def>) returns (at: seq<nat>, values: seq<int>, first: nat)
    requires 0 < amount < TWO_63 && (mode == EXACT || mode == PERCENTAGE)
    requires exists i | 0 <= i < |defs| :: defs[i].user.Some?
    ensures Valued(amount, mode, defs, at, values) && FirstNamed(defs, first)
    ensures SplitRows(amount, mode, defs).None? <==>
              || AnyRefused(mode, defs, at, values) || !(0 <= Sum(values) < TWO_63)
              || AnyTopUpRefused(amount, defs, at, values, first)
    ensures SplitRows(amount, mode, defs).Some? ==> AsTopped(SplitRows(amount, mode, defs).value, amount, defs, at, values, first)
  {
    hide InsertAll;
    hide IsValue;
    hide SplitRows;
    hide TopUp;
    hide Users;
    hide Sum;
    hide Lists;
    NobodyNamed(defs);
    first := FirstOfUsers(defs);
    at, values := Inserts(amount, mode, defs);
    ValuesToRows(amount, mode, defs);
    var stored := InsertAll(amount, mode, defs);
    hide AnyRefused;
    hide AnyTopUpRefused;
    hide AsTopped;
    hide AsValued;
    hide Valued;
    if stored.Some? {
      ToppedUp(amount, mode, defs, at, values, first, stored.value);
    }
  }

  lemma {:induction false} ValuesToRows(amount: int, mode: Mode, defs: seq<Def>)
    requires mode != EQUAL && Users(defs) != []
    ensures var stored := InsertAll(amount, mode, defs);
            SplitRows(amount, mode, defs) ==
              if stored.None? || !(0 <= Sum(Amounts(stored.value)) < TWO_63) then None
              else if Sum(Amounts(stored.value)) == amount then stored
              else TopUp(stored.value, Users(defs)[0], amount - Sum(Amounts(stored.value)))
  {
    hide Users;
    hide InsertAll;
    hide Sum;
    hide TopUp;
  }

  lemma {:induction false} ToppedUp(amount: int, mode: Mode, defs: seq<Def>, at: seq<nat>, values: seq<int>, first: nat, stored: seq<SplitRow>)
    requires Valued(amount, mode, defs, at, values) && !AnyRefused(mode, defs, at, values)
    requires AsValued(stored, defs, at, values) && first < |defs| && defs[first].user.Some?
    ensures Sum(Amounts(stored)) == Sum(values)
    ensures var diff, rows := amount - Sum(values), TopUp(stored, defs[first].user.value, amount - Sum(values));
            && (rows.None? <==> AnyTopUpRefused(amount, defs, at, values, first))
            && (rows.Some? ==> AsTopped(rows.value, amount, defs, at, values, first))
            && (diff == 0 ==> rows == Some(stored))
  {
    assert Amounts(stored) == values;
    assert forall i | 0 <= i < |at| :: at[i] < |defs| && defs[at[i]].user.Some? && !Refused(mode, defs[at[i]], values[i]);
    hide Sum;
    hide AnyRefused;
    hide Valued;
    ToppedUpBy(amount, defs, at, values, first, stored, Sum(values));
  }

  lemma {:induction false} ToppedUpBy(amount: int, defs: seq<Def>, at: seq<nat>, values: seq<int>, first: nat, stored: seq<SplitRow>, sum: int)
    requires |values| == |at| && (forall i | 0 <= i < |at| :: at[i] < |defs| && defs[at[i]].user.Some?)
    requires AsValued(stored, defs, at, values) && first < |defs| && defs[first].user.Some? && sum == Sum(values)
    requires forall i | 0 <= i < |at| :: Storable(values[i])
    ensures var rows := TopUp(stored, defs[first].user.value, amount - sum);
            && (rows.None? <==> AnyTopUpRefused(amount, defs, at, values, first))
            && (rows.Some? ==> AsTopped(rows.value, amount, defs, at, values, first))
            && (sum == amount ==> rows == Some(stored))
  {
    hide Sum;
    var user, diff := defs[first].user.value, amount - sum;
    var topped := seq(|at|, i requires 0 <= i < |at| => Topped(amount, defs, at, values, first, i));
    assert forall i | 0 <= i < |at| :: stored[i].user == user <==> defs[at[i]].user == defs[first].user;
    assert forall i | 0 <= i < |at| && stored[i].user == user :: topped[i] == stored[i].amount + diff;
    if exists i | 0 <= i < |at| && stored[i].user == user :: !Storable(stored[i].amount + diff) {
      var i :| 0 <= i < |at| && stored[i].user == user && !Storable(stored[i].amount + diff);
      assert defs[at[i]].user == defs[first].user && topped[i] == stored[i].amount + diff;
    }
    if diff == 0 { assert Raised(stored, user, diff) == stored; }
  }

  /** With no valid user there are no rows. */
  lemma NobodyPays(amount: int, mode: Mode, defs: seq<Def>)
    requires forall i | 0 <= i < |defs| :: defs[i].user.None?
    ensures SplitRows(amount, mode, defs) == Some([])
  {
    NobodyNamed(defs);
  }

  /** Definitions that give every user once and every value: row by row the value, the share
      rounded down in PERCENTAGE mode, with the whole difference to the amount in the first. Values
      that already sum to the amount are the rows. */
  lemma CompleteRowsAre(amount: int, mode: Mode, defs: seq<Def>) returns (values: seq<int>)
    requires 0 < amount < TWO_63 && defs != [] && (mode == EXACT || mode == PERCENTAGE) && Complete(mode, defs)
    requires SplitRows(amount, mode, defs).Some?
    ensures |values| == |SplitRows(amount, mode, defs).value| == |defs|
    ensures forall i | 0 <= i < |defs| :: mode == EXACT ==> defs[i].amount == Some(values[i])
    ensures forall i | 0 <= i < |defs| ::
              mode == PERCENTAGE && 0 <= amount * defs[i].percentage.value < TWO_63 ==>
                100 * values[i] <= amount * defs[i].percentage.value < 100 * values[i] + 100
    ensures var rows := SplitRows(amount, mode, defs).value;
            && rows[0] == SplitRow(defs[0].user.value, values[0] + amount - Sum(values))
            && (forall i | 1 <= i < |defs| :: rows[i] == SplitRow(defs[i].user.value, values[i]))
            && (Sum(values) == amount ==> forall i | 0 <= i < |defs| :: rows[i] == SplitRow(defs[i].user.value, values[i]))
  {
    var at, first;
    assert defs[0].user.Some?;
    at, values, first := ValueRows(amount, mode, defs);
    assert forall d: nat | d < |defs| :: Carries(mode)(defs[d]);
    hide SplitRows;
    Everything(at, defs, Carries(mode));
    assert first == 0;
    forall i | 0 <= i < |defs| && mode == PERCENTAGE && 0 <= amount * defs[i].percentage.value < TWO_63
      ensures 100 * values[i] <= amount * defs[i].percentage.value < 100 * values[i] + 100
    {
      assert IsValue(amount, mode, defs[at[i]], values[i]);
      HundredthsPlain(amount, defs[i].percentage.value, values[i]);
    }
  }

  lemma Everything(at: seq<nat>, defs: seq<Def>, keep: Def -> bool)
    requires Lists(at, defs, keep) && forall d: nat | d < |defs| :: keep(defs[d])
    ensures |at| == |defs| && forall i | 0 <= i < |at| :: at[i] == i
  {
    Reaches(at, defs, keep, |defs|);
    Rises(at, |at|);
    assert at != [] ==> |at| - 1 <= at[|at| - 1] < |defs|;
  }

  lemma {:induction false} Rises(at: seq<nat>, n: nat)
    requires n <= |at| && forall i, j | 0 <= i < j < |at| :: at[i] < at[j]
    ensures forall i | 0 <= i < n :: i <= at[i]
  {
    if n > 0 {
      Rises(at, n - 1);
      assert n > 1 ==> at[n - 2] < at[n - 1];
    }
  }

  lemma {:induction false} Reaches(at: seq<nat>, defs: seq<Def>, keep: Def -> bool, n: nat)
    requires Lists(at, defs, keep) && (forall d: nat | d < |defs| :: keep(defs[d])) && n <= |defs|
    ensures n <= |at| && forall i | 0 <= i < n :: at[i] == i
  {
    if n > 0 {
      var i := n - 1;
      Reaches(at, defs, keep, i);
      assert keep(defs[i]);
      var j :| 0 <= j < |at| && at[j] == i;
      assert j >= i && at[i] <= at[j];
      assert i > 0 ==> at[i - 1] < at[i];
    }
  }

  // ----- the rows in EQUAL mode

  lemma {:induction false} UsersAt(defs: seq<Def>) returns (at: seq<nat>)
    ensures Lists(at, defs, HasUser()) && |at| == |Users(defs)|
    ensures forall i | 0 <= i < |at| :: defs[at[i]].user == Some(Users(defs)[i])
    decreases |defs|
  {
    at := [];
    if defs != [] {
      var init := UsersAt(defs[..|defs| - 1]);
      assert defs == defs[..|defs| - 1] + [defs[|defs| - 1]];
      at := ListsMore(init, defs[..|defs| - 1], defs[|defs| - 1], HasUser());
      hide Lists;
    }
  }

  /** EQUAL: one row for each definition with a valid user, in their order. The rows add up to the
      amount, the first amount mod n of them are the quotient plus one and the others the quotient. */
  lemma EqualRowsAre(amount: int, defs: seq<Def>) returns (at: seq<nat>)
    requires 0 < amount < TWO_63 && (exists i | 0 <= i < |defs| :: defs[i].user.Some?)
    requires SplitRows(amount, EQUAL, defs).Some?
    ensures Lists(at, defs, HasUser()) && at != []
    ensures var rows := SplitRows(amount, EQUAL, defs).value;
            && |rows| == |at| && Sum(Amounts(rows)) == amount
            && (forall i | 0 <= i < |at| :: rows[i].user == defs[at[i]].user.value)
            && forall i | 0 <= i < |at| :: rows[i].amount == amount / |at| + (if i < amount % |at| then 1 else 0)
  {
    NobodyNamed(defs);
    at := UsersAt(defs);
    RowsOf(amount, EQUAL, defs);
    EqualTotal(amount, Users(defs));
    hide Sum;
    hide Users;
    hide SplitRows;
  }
}
