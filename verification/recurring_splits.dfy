/** The split rows of a recurring expense (`insertSplits`, internal/recurring/handlers.go). */
module RecurringSplits {
  import opened Entities
  import opened Numbers
  import opened Options

  /** A stored split definition: the parsed user id and whole parts of the numbers present;
      `known` tells whether the user exists, `accepted` whether the percentage column takes the
      value. */
  datatype Def = Def(user: Option<UserId>, known: bool, amount: Option<int>, percentage: Option<int>, accepted: bool,
                     shares: Option<int>)

  datatype SplitRow = SplitRow(user: UserId, amount: int)

  /** expense_splits.amount is a BIGINT with CHECK (amount >= 0). */
  predicate Storable(amount: int) { 0 <= amount < TWO_63 }

  function Users(defs: seq<Def>): (ids: seq<UserId>)
    ensures |ids| <= |defs|
  {
    if defs == [] then []
    else
      var d := defs[|defs| - 1];
      Users(defs[..|defs| - 1]) + if d.user.Some? then [d.user.value] else []
  }

  /** For each of those users, whether the foreign key of the rows is met. */
  function Knowns(defs: seq<Def>): (r: seq<bool>)
    ensures |r| == |Users(defs)|
  {
    if defs == [] then []
    else
      var d := defs[|defs| - 1];
      Knowns(defs[..|defs| - 1]) + if d.user.Some? then [d.known] else []
  }

  predicate AllKnown(known: seq<bool>) { forall i | 0 <= i < |known| :: known[i] }

  /** What one definition does in the modes that use stored values. */
  datatype Insertion = Skipped | Inserted(row: SplitRow) | Rejected

  function Checked(user: UserId, amount: int, accepted: bool): Insertion {
    if Storable(amount) && accepted then Inserted(SplitRow(user, amount)) else Rejected
  }

  function PercentOf(amount: int, percentage: int): int {
    TruncDiv(Wrap(amount * percentage), 100)
  }

  function Insert(amount: int, mode: Mode, d: Def): Insertion {
    if d.user.None? then Skipped
    else match mode
      case EXACT => if d.amount.None? then Skipped else Checked(d.user.value, d.amount.value, d.known)
      case PERCENTAGE =>
        if d.percentage.None? then Skipped
        else Checked(d.user.value, PercentOf(amount, d.percentage.value), d.known && d.accepted)
      case SHARES => if d.shares.None? then Skipped else Rejected   // the statement leaves the NOT NULL amount out
      case EQUAL => Skipped
  }

  function InsertAll(amount: int, mode: Mode, defs: seq<Def>): Option<seq<SplitRow>> {
    if defs == [] then Some([])
    else
      var rows := InsertAll(amount, mode, defs[..|defs| - 1]);
      if rows.None? then None
      else match Insert(amount, mode, defs[|defs| - 1])
        case Skipped => rows
        case Inserted(row) => Some(rows.value + [row])
        case Rejected => None
  }

  function Amounts(rows: seq<SplitRow>): (r: seq<int>)
    ensures |r| == |rows|
  {
    seq(|rows|, i requires 0 <= i < |rows| => rows[i].amount)
  }

  /** How many rows `user` has. */
  function Rows(rows: seq<SplitRow>, user: UserId): nat {
    if rows == [] then 0
    else Rows(rows[..|rows| - 1], user) + if rows[|rows| - 1].user == user then 1 else 0
  }

  function Raised(rows: seq<SplitRow>, user: UserId, diff: int): (r: seq<SplitRow>)
    ensures |r| == |rows|
  {
    seq(|rows|, i requires 0 <= i < |rows| =>
      if rows[i].user == user then SplitRow(user, rows[i].amount + diff) else rows[i])
  }

  /** UPDATE .. SET amount = amount + diff: every row of the user, or none when one is refused. */
  function TopUp(rows: seq<SplitRow>, user: UserId, diff: int): Option<seq<SplitRow>> {
    if forall i | 0 <= i < |rows| && rows[i].user == user :: Storable(rows[i].amount + diff)
    then Some(Raised(rows, user, diff)) else None
  }

  /** The rows a run leaves for a schedule with these definitions, or None when it fails. */
  function SplitRows(amount: int, mode: Mode, defs: seq<Def>): Option<seq<SplitRow>> {
    var ids := Users(defs);
    if ids == [] then Some([])
    else if mode == EQUAL then (if AllKnown(Knowns(defs)) then Some(EqualRows(amount, ids, |ids|)) else None)
    else
      var rows := InsertAll(amount, mode, defs);
      if rows.None? then None
      else
        var sum := Sum(Amounts(rows.value));
        if !Storable(sum) then None
        else if sum == amount then rows
        else TopUp(rows.value, ids[0], amount - sum)
  }

  /** The first amount % |ids| of the users pay one unit more. */
  function EqualRows(amount: int, ids: seq<UserId>, n: nat): (r: seq<SplitRow>)
    requires n <= |ids| && ids != []
    ensures |r| == n
  {
    seq(n, i requires 0 <= i < n => SplitRow(ids[i], amount / |ids| + if i < amount % |ids| then 1 else 0))
  }

  // ----- the code

  /** `insertSplits`; None stands for an error of some statement. */
  method InsertSplits(amount: int, mode: Mode, defs: seq<Def>) returns (rows: Option<seq<SplitRow>>)
    requires 0 < amount < TWO_63
    ensures rows == SplitRows(amount, mode, defs)
  {
    var ids: seq<UserId>, known: seq<bool> := [], [];
    for i := 0 to |defs|
      invariant ids == Users(defs[..i]) && known == Knowns(defs[..i])
    {
      assert defs[..i + 1][..i] == defs[..i];
      if defs[i].user.Some? {
        ids, known := ids + [defs[i].user.value], known + [defs[i].known];
      }
    }
    assert defs[..|defs|] == defs;
    hide Users;
    hide Knowns;
    hide InsertAll;
    hide TopUp;
    if |ids| == 0 {
      return Some([]);
    }
    if mode == EQUAL {
      rows := InsertEqual(amount, ids, known);
      return;
    }
    var inserted := InsertValues(amount, mode, defs);
    if inserted.None? {
      return None;
    }
    var sum := GetRecurringSplitsSum(inserted.value);
    if !Storable(sum) {
      return None;
    }
    var diff := amount - sum;
    if diff != 0 {
      return TopUp(inserted.value, ids[0], diff);
    }
    return inserted;
  }

  /** Equal rows for the users; the insert of a row for an unknown one fails. */
  method InsertEqual(amount: int, ids: seq<UserId>, known: seq<bool>) returns (rows: Option<seq<SplitRow>>)
    requires 0 < amount < TWO_63 && ids != [] && |known| == |ids|
    ensures rows == if AllKnown(known) then Some(EqualRows(amount, ids, |ids|)) else None
  {
    var base, rem := amount / |ids|, amount % |ids|;
    var inserted := [];
    for i := 0 to |ids|
      invariant inserted == EqualRows(amount, ids, i)
      invariant forall j | 0 <= j < i :: known[j]
    {
      var amt := base;
      if i < rem {
        amt := amt + 1;
      }
      if !known[i] {
        return None;
      }
      inserted := inserted + [SplitRow(ids[i], amt)];
    }
    return Some(inserted);
  }

  method InsertValues(amount: int, mode: Mode, defs: seq<Def>) returns (rows: Option<seq<SplitRow>>)
    requires mode != EQUAL
    ensures rows == InsertAll(amount, mode, defs)
  {
    var inserted: seq<SplitRow> := [];
    for i := 0 to |defs|
      invariant InsertAll(amount, mode, defs[..i]) == Some(inserted)
    {
      assert defs[..i + 1][..i] == defs[..i];
      hide Checked;
      hide PercentOf;
      match Insert(amount, mode, defs[i]) {
        case Skipped =>
        case Inserted(row) => inserted := inserted + [row];
        case Rejected =>
          RejectionStays(amount, mode, defs, i + 1);
          return None;
      }
    }
    assert defs[..|defs|] == defs;
    return Some(inserted);
  }

  method GetRecurringSplitsSum(rows: seq<SplitRow>) returns (sum: int)
    ensures sum == Sum(Amounts(rows))
  {
    sum := 0;
    for i := 0 to |rows|
      invariant sum == Sum(Amounts(rows)[..i])
    {
      SumNext(Amounts(rows), i);
      sum := sum + rows[i].amount;
    }
    assert Amounts(rows)[..|rows|] == Amounts(rows);
  }

  lemma {:induction false} RejectionStays(amount: int, mode: Mode, defs: seq<Def>, i: nat)
    requires i <= |defs| && InsertAll(amount, mode, defs[..i]).None?
    ensures InsertAll(amount, mode, defs).None?
    decreases |defs|
  {
    if i < |defs| {
      assert defs[..|defs| - 1][..i] == defs[..i];
      RejectionStays(amount, mode, defs[..|defs| - 1], i);
    } else {
      assert defs[..i] == defs;
    }
  }

  // ----- what the rows add up to

  lemma AmountsSnoc(rows: seq<SplitRow>)
    requires rows != []
    ensures Sum(Amounts(rows)) == Sum(Amounts(rows[..|rows| - 1])) + rows[|rows| - 1].amount
  {
    assert Amounts(rows) == Amounts(rows[..|rows| - 1]) + [rows[|rows| - 1].amount];
    SumSnoc(Amounts(rows[..|rows| - 1]), rows[|rows| - 1].amount);
  }

  lemma {:induction false} RaisedSum(rows: seq<SplitRow>, user: UserId, diff: int)
    ensures Sum(Amounts(Raised(rows, user, diff))) == Sum(Amounts(rows)) + Rows(rows, user) * diff
  {
    if rows != [] {
      var init, last := rows[..|rows| - 1], rows[|rows| - 1];
      RaisedSum(init, user, diff);
      AmountsSnoc(rows);
      AmountsSnoc(Raised(rows, user, diff));
      assert Raised(rows, user, diff)[..|rows| - 1] == Raised(init, user, diff);
      assert (Rows(init, user) + 1) * diff == Rows(init, user) * diff + diff;
    }
  }

  lemma {:induction false} EqualSum(amount: int, ids: seq<UserId>, n: nat)
    requires ids != [] && n <= |ids|
    ensures Sum(Amounts(EqualRows(amount, ids, n))) == n * (amount / |ids|) + Min(n, amount % |ids|)
  {
    if n > 0 {
      EqualSum(amount, ids, n - 1);
      AmountsSnoc(EqualRows(amount, ids, n));
      assert EqualRows(amount, ids, n)[..n - 1] == EqualRows(amount, ids, n - 1);
      assert n * (amount / |ids|) == (n - 1) * (amount / |ids|) + amount / |ids|;
    }
  }

  /** When the rows of a recurring expense add up to its amount: always in EQUAL mode; in the
      other modes exactly when the stored values already do, or the first valid user, who gets
      the difference, has one row. */
  lemma {:induction false} SplitRowsSum(amount: int, mode: Mode, defs: seq<Def>)
    requires 0 < amount < TWO_63 && Users(defs) != [] && SplitRows(amount, mode, defs).Some?
    ensures var rows := SplitRows(amount, mode, defs).value;
            var stored := InsertAll(amount, mode, defs);
            Sum(Amounts(rows)) == amount <==>
              || mode == EQUAL
              || (stored.Some? && (Sum(Amounts(stored.value)) == amount || Rows(stored.value, Users(defs)[0]) == 1))
  {
    RowsOf(amount, mode, defs);
    hide *;
    if mode == EQUAL {
      EqualTotal(amount, Users(defs));
    } else {
      ValueSum(amount, InsertAll(amount, mode, defs).value, Users(defs)[0]);
    }
  }

  lemma {:induction false} RowsOf(amount: int, mode: Mode, defs: seq<Def>)
    requires Users(defs) != [] && SplitRows(amount, mode, defs).Some?
    ensures mode == EQUAL ==> SplitRows(amount, mode, defs).value == EqualRows(amount, Users(defs), |Users(defs)|)
    ensures mode != EQUAL ==>
              var stored := InsertAll(amount, mode, defs);
              stored.Some? && SplitRows(amount, mode, defs).value == Raised(stored.value, Users(defs)[0], amount - Sum(Amounts(stored.value)))
  {
    hide Users;
    hide InsertAll;
    hide Sum;
  }

  lemma EqualTotal(amount: int, ids: seq<UserId>)
    requires ids != [] && amount > 0
    ensures Sum(Amounts(EqualRows(amount, ids, |ids|))) == amount
  {
    EqualSum(amount, ids, |ids|);
    assert amount == |ids| * (amount / |ids|) + amount % |ids|;
  }

  lemma {:induction false} ValueSum(amount: int, stored: seq<SplitRow>, user: UserId)
    ensures var sum := Sum(Amounts(stored));
            Sum(Amounts(Raised(stored, user, amount - sum))) == amount <==> sum == amount || Rows(stored, user) == 1
    ensures Sum(Amounts(stored)) == amount ==> Raised(stored, user, 0) == stored
  {
    var diff := amount - Sum(Amounts(stored));
    RaisedSum(stored, user, diff);
    OnceOnly(Rows(stored, user), diff);
    hide Sum;
    hide Rows;
  }

  lemma OnceOnly(count: nat, diff: int)
    ensures count * diff == diff <==> diff == 0 || count == 1
  {
    if count >= 2 && diff > 0 {
      MulGap(diff, 1, count);
      assert count * diff == diff * count;
    } else if count >= 2 && diff < 0 {
      MulGap(-diff, 1, count);
      assert count * diff == -(-diff * count);
    }
  }

  /** All of an EQUAL expense's rows are storable and differ by at most one unit. */
  lemma EqualRowsFair(amount: int, ids: seq<UserId>)
    requires 0 < amount < TWO_63 && ids != []
    ensures var rows := EqualRows(amount, ids, |ids|);
            && (forall i | 0 <= i < |rows| :: Storable(rows[i].amount))
            && forall i, j | 0 <= i < j < |rows| :: rows[j].amount <= rows[i].amount <= rows[j].amount + 1
  {
    assert amount == |ids| * (amount / |ids|) + amount % |ids|;
    MulOrder(amount / |ids|, 1, |ids|);
    assert |ids| * (amount / |ids|) == (amount / |ids|) * |ids|;
    var base := amount / |ids|;
    assert 0 <= base && base + amount % |ids| <= amount;
  }

  /** Definitions that carry every value for distinct users. */
  ghost predicate Complete(mode: Mode, defs: seq<Def>) {
    && (forall i | 0 <= i < |defs| ::
          defs[i].user.Some? && (mode == EXACT ==> defs[i].amount.Some?) && (mode == PERCENTAGE ==> defs[i].percentage.Some?))
    && forall i, j | 0 <= i < j < |defs| :: defs[i].user != defs[j].user
  }

  lemma {:induction false} CompleteRows(amount: int, mode: Mode, defs: seq<Def>)
    requires Complete(mode, defs) && (mode == EXACT || mode == PERCENTAGE) && InsertAll(amount, mode, defs).Some?
    ensures var rows := InsertAll(amount, mode, defs).value;
            && |rows| == |Users(defs)| == |defs|
            && forall i | 0 <= i < |defs| :: rows[i].user == Users(defs)[i] == defs[i].user.value
  {
    if defs != [] {
      CompleteRows(amount, mode, defs[..|defs| - 1]);
    }
  }

  lemma {:induction false} RowsOfDistinct(rows: seq<SplitRow>, k: nat)
    requires k < |rows| && forall i, j | 0 <= i < j < |rows| :: rows[i].user != rows[j].user
    ensures Rows(rows, rows[k].user) == 1
  {
    var init := rows[..|rows| - 1];
    if k < |init| {
      RowsOfDistinct(init, k);
      assert rows[k] == init[k];
    } else {
      RowsOfNone(init, rows[k].user);
    }
  }

  lemma {:induction false} RowsOfNone(rows: seq<SplitRow>, user: UserId)
    requires forall i | 0 <= i < |rows| :: rows[i].user != user
    ensures Rows(rows, user) == 0
  {
    if rows != [] {
      RowsOfNone(rows[..|rows| - 1], user);
    }
  }

  /** With distinct users and every value present, EXACT and PERCENTAGE rows of a run that
      succeeds always add up to the amount. */
  lemma CompleteSplitsSum(amount: int, mode: Mode, defs: seq<Def>)
    requires 0 < amount < TWO_63 && defs != [] && (mode == EXACT || mode == PERCENTAGE) && Complete(mode, defs)
    requires SplitRows(amount, mode, defs).Some?
    ensures Sum(Amounts(SplitRows(amount, mode, defs).value)) == amount
  {
    FirstUser(defs);
    CompleteRows(amount, mode, defs);
    RowsOfDistinct(InsertAll(amount, mode, defs).value, 0);
    SplitRowsSum(amount, mode, defs);
  }

  lemma {:induction false} FirstUser(defs: seq<Def>)
    requires exists i | 0 <= i < |defs| :: defs[i].user.Some?
    ensures Users(defs) != []
  {
    var i :| 0 <= i < |defs| && defs[i].user.Some?;
    if i < |defs| - 1 {
      assert defs[..|defs| - 1][i].user.Some?;
      FirstUser(defs[..|defs| - 1]);
    }
  }

  /** SHARES schedules never get rows: a definition with a share makes the run fail, and
      without any share nothing is inserted or topped up. */
  lemma {:induction false} SharesNeverSplit(amount: int, defs: seq<Def>)
    requires 0 < amount < TWO_63
    ensures SplitRows(amount, SHARES, defs) ==
              if exists i | 0 <= i < |defs| :: defs[i].user.Some? && defs[i].shares.Some? then None else Some([])
  {
    SharesInserts(amount, defs);
    if exists i | 0 <= i < |defs| :: defs[i].user.Some? && defs[i].shares.Some? {
      FirstUser(defs);
    } else if Users(defs) != [] {
      assert Raised([], Users(defs)[0], amount) == [];
    }
  }

  lemma {:induction false} SharesInserts(amount: int, defs: seq<Def>)
    ensures InsertAll(amount, SHARES, defs) ==
              if exists i | 0 <= i < |defs| :: defs[i].user.Some? && defs[i].shares.Some? then None else Some([])
  {
    if defs != [] {
      var init := defs[..|defs| - 1];
      SharesInserts(amount, init);
      if i :| 0 <= i < |defs| && defs[i].user.Some? && defs[i].shares.Some? {
        if i < |init| { assert init[i].user.Some? && init[i].shares.Some?; }
      }
    }
  }

  ghost predicate NamesUnknown(defs: seq<Def>) {
    exists i | 0 <= i < |defs| :: defs[i].user.Some? && !defs[i].known
  }

  lemma {:induction false} KnownsOf(defs: seq<Def>)
    ensures AllKnown(Knowns(defs)) <==> !NamesUnknown(defs)
  {
    if defs != [] {
      var init, d := defs[..|defs| - 1], defs[|defs| - 1];
      KnownsOf(init);
      assert NamesUnknown(defs) <==> NamesUnknown(init) || (d.user.Some? && !d.known) by {
        if NamesUnknown(init) {
          var i :| 0 <= i < |init| && init[i].user.Some? && !init[i].known;
          assert defs[i] == init[i];
        }
      }
      if d.user.Some? {
        assert Knowns(defs)[|Knowns(init)|] == d.known;
        assert AllKnown(Knowns(defs)) <==> AllKnown(Knowns(init)) && d.known by {
          assert forall k | 0 <= k < |Knowns(init)| :: Knowns(defs)[k] == Knowns(init)[k];
        }
      } else {
        assert Knowns(defs) == Knowns(init);
      }
    }
  }

  /** Creating a schedule looks up no participant: an EQUAL schedule fails, at every run, exactly
      when a definition names someone who is not in the users table. */
  lemma UnknownUserFails(amount: int, defs: seq<Def>)
    requires 0 < amount < TWO_63
    ensures SplitRows(amount, EQUAL, defs).None? <==> NamesUnknown(defs)
  {
    KnownsOf(defs);
    if NamesUnknown(defs) {
      FirstUser(defs);
    }
  }

  function OfMembers(members: seq<UserId>): (r: seq<Def>)
    ensures |r| == |members|
  {
    seq(|members|, i requires 0 <= i < |members| => Def(Some(members[i]), true, None, None, false, None))
  }

  /** Falling back to the members splits evenly only in EQUAL mode: in any other mode the
      expense ends up without split rows. */
  lemma {:induction false} MembersFallback(amount: int, mode: Mode, members: seq<UserId>)
    requires 0 < amount < TWO_63 && members != []
    ensures Users(OfMembers(members)) == members
    ensures SplitRows(amount, mode, OfMembers(members)) == Some(if mode == EQUAL then EqualRows(amount, members, |members|) else [])
  {
    MembersInsertNothing(amount, mode, members);
    if mode != EQUAL {
      assert Raised([], members[0], amount) == [];
    }
  }

  lemma {:induction false} MembersInsertNothing(amount: int, mode: Mode, members: seq<UserId>)
    ensures Users(OfMembers(members)) == members && InsertAll(amount, mode, OfMembers(members)) == Some([])
    ensures AllKnown(Knowns(OfMembers(members)))
  {
    if members != [] {
      var init := members[..|members| - 1];
      MembersInsertNothing(amount, mode, init);
      assert OfMembers(members)[..|members| - 1] == OfMembers(init);
    }
  }
}
