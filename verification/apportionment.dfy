/** Hamilton largest-remainder apportionment (internal/money/split.go): `Apportioned` is what
    the code computes on any int64 input, wrap-around included; the lemmas below it say what
    that means for the callers while no product leaves int64. */
module Apportionment {
  import opened Numbers
  import opened Sorting

  datatype IdxRem = IdxRem(idx: nat, rem: int)

  /** Position of `idx` in the tie-break order that starts at `offset`. */
  function Rotate(idx: int, n: int, offset: int): int
    requires n != 0
  {
    TruncMod(idx - offset + n, n)
  }

  /** The comparator: larger remainder first, then rotated position. */
  function Ahead(n: nat, offset: int): (IdxRem, IdxRem) -> bool
    requires n != 0
  {
    (a: IdxRem, b: IdxRem) =>
      if a.rem != b.rem then a.rem > b.rem
      else Rotate(a.idx, n, offset) < Rotate(b.idx, n, offset)
  }

  function Base(amount: Int64, share: Int64, total: Int64): Int64
    requires total != 0
  {
    Wrap(TruncDiv(Wrap(amount * share), total))
  }

  function Remainder(amount: Int64, share: Int64, total: Int64): (r: int)
    requires total != 0
  {
    TruncMod(Wrap(amount * share), total)
  }

  function Bases(amount: Int64, shares: seq<Int64>, total: Int64): (r: seq<int>)
    requires total != 0
    ensures |r| == |shares|
  {
    seq(|shares|, i requires 0 <= i < |shares| => Base(amount, shares[i], total))
  }

  function Remainders(amount: Int64, shares: seq<Int64>, total: Int64): (r: seq<int>)
    requires total != 0
    ensures |r| == |shares|
  {
    seq(|shares|, i requires 0 <= i < |shares| => Remainder(amount, shares[i], total))
  }

  function Entries(rems: seq<int>): (r: seq<IdxRem>)
    ensures |r| == |rems|
    ensures forall i | 0 <= i < |r| :: r[i] == IdxRem(i, rems[i])
  {
    seq(|rems|, i requires 0 <= i < |rems| => IdxRem(i, rems[i]))
  }

  /** Units still to hand out after every share got its truncated quotient. */
  function Leftover(amount: Int64, shares: seq<Int64>, total: Int64): Int64
    requires total != 0
  {
    Wrap(amount - Wrap(Sum(Bases(amount, shares, total))))
  }

  function Ranking(amount: Int64, shares: seq<Int64>, total: Int64, offset: int): (r: seq<IdxRem>)
    requires total != 0 && shares != []
    ensures |r| == |shares|
  {
    SortBy(Entries(Remainders(amount, shares, total)), Ahead(|shares|, offset))
  }

  /** The indices that get one unit more than their quotient. */
  function Bonus(amount: Int64, shares: seq<Int64>, total: Int64, offset: int): set<int>
    requires total != 0 && shares != []
  {
    var k := Max(0, Min(Leftover(amount, shares, total), |shares|));
    set e | e in Ranking(amount, shares, total, offset)[..k] :: e.idx
  }

  /** One unit more at the positions in `bonus`. */
  function Awards(bases: seq<int>, bonus: set<int>): (r: seq<Int64>)
    ensures |r| == |bases|
  {
    seq(|bases|, i requires 0 <= i < |bases| => Wrap(bases[i] + if i in bonus then 1 else 0))
  }

  /** The result of `apportion`. */
  function Apportioned(amount: Int64, shares: seq<Int64>, total: Int64, offset: int): (r: seq<Int64>)
    ensures |r| == |shares|
  {
    if shares == [] || total == 0 then seq(|shares|, _ => 0)
    else
      Awards(Bases(amount, shares, total), Bonus(amount, shares, total, offset))
  }

  // ----- the comparator is a strict total order on the entries it sorts

  lemma RemainderOf(x: int, n: int, r: int, k: int)
    requires x == r + n * k && 0 <= r < n
    ensures x % n == r
  {
    if k < x / n { MulGap(n, k, x / n); }
    if k > x / n { MulGap(n, x / n, k); }
  }

  lemma RotateClosedForm(idx: nat, n: nat, offset: nat)
    requires idx < n && offset < n
    ensures Rotate(idx, n, offset) == (if idx >= offset then idx - offset else idx - offset + n)
    ensures Rotate(idx, n, offset) == (idx - offset) % n
  {
    var d := idx - offset;
    if d >= 0 {
      RemainderOf(d + n, n, d, 1);
      RemainderOf(d, n, d, 0);
    } else {
      RemainderOf(d + n, n, d + n, 0);
      RemainderOf(d, n, d + n, -1);
    }
  }

  lemma AheadOrders(s: seq<IdxRem>, n: nat, offset: nat)
    requires offset < n
    ensures StrictWeakOrder(s, Ahead(n, offset))
    ensures (forall e | e in s :: e.idx < n) ==> NeverTies(s, Ahead(n, offset))
  {
    var less := Ahead(n, offset);
    forall e | e in s && e.idx < n
      ensures Rotate(e.idx, n, offset) == if e.idx >= offset then e.idx - offset else e.idx - offset + n
    {
      RotateClosedForm(e.idx, n, offset);
    }
  }

  lemma RankingIsSorted(amount: Int64, shares: seq<Int64>, total: Int64, offset: nat)
    requires total != 0 && offset < |shares|
    ensures Sorted(Ranking(amount, shares, total, offset), Ahead(|shares|, offset))
    ensures NeverTies(Entries(Remainders(amount, shares, total)), Ahead(|shares|, offset))
  {
    var entries := Entries(Remainders(amount, shares, total));
    AheadOrders(entries, |shares|, offset);
    assert forall e | e in entries :: e.idx < |shares|;
    SortBySorted(entries, Ahead(|shares|, offset));
  }

  /** The ranking lists every index once, with its own remainder. */
  lemma RankingIsPermutation(amount: Int64, shares: seq<Int64>, total: Int64, offset: nat)
    requires total != 0 && offset < |shares|
    ensures var r := Ranking(amount, shares, total, offset);
            && (forall p | 0 <= p < |r| :: r[p].idx < |shares| && r[p].rem == Remainder(amount, shares[r[p].idx], total))
            && (forall p, q | 0 <= p < q < |r| :: r[p].idx != r[q].idx)
            && (forall i | 0 <= i < |shares| :: IdxRem(i, Remainder(amount, shares[i], total)) in r)
  {
    var r := Ranking(amount, shares, total, offset);
    var entries := Entries(Remainders(amount, shares, total));
    MembersAgree(r, entries);
    forall p | 0 <= p < |r|
      ensures r[p].idx < |shares| && r[p].rem == Remainder(amount, shares[r[p].idx], total)
    {
      assert r[p] in entries;
    }
    forall i | 0 <= i < |shares|
      ensures IdxRem(i, Remainder(amount, shares[i], total)) in r
    {
      assert entries[i] in entries;
    }
    PermutationKeepsDistinct(entries, r);
  }
}
