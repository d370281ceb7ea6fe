/** When the order of each owner's claims leaves every owner's total alone: exactly when it does. */
module ApportionmentOwners {
  import opened Numbers
  import opened Sorting
  import opened Filtering
  import opened Grouping
  import opened Apportionment
  import opened ApportionmentExact
  import opened ApportionmentTies
  import Order = ApportionmentOrder

  /** What `u` gets over all claims. */
  function TotalOf(amount: Int64, total: Int64, s: seq<Claim>, offset: nat, u: int): int {
    Total(RowItems(Owners(s), Apportioned(amount, Shares(s), total, offset)), u)
  }

  // ----- what every arrangement has in common

  function Quotient(amount: Int64, total: Int64): Claim -> Item<int>
    requires total != 0
  {
    (c: Claim) => Item(c.owner, Base(amount, c.share, total))
  }

  lemma {:induction false} QuotientTotals(amount: Int64, total: Int64, s: seq<Claim>, t: seq<Claim>, u: int)
    requires total != 0 && multiset(s) == multiset(t)
    ensures Total(RowItems(Owners(s), Bases(amount, Shares(s), total)), u) == Total(RowItems(Owners(t), Bases(amount, Shares(t), total)), u)
  {
    hide Base;
    var f := Quotient(amount, total);
    assert Map(f, s) == RowItems(Owners(s), Bases(amount, Shares(s), total));
    assert Map(f, t) == RowItems(Owners(t), Bases(amount, Shares(t), total));
    MapMultiset(f, s, t);
    TotalMultiset(Map(f, s), Map(f, t), u);
  }

  lemma SameHanded(amount: Int64, total: Int64, s: seq<Claim>, t: seq<Claim>)
    requires total != 0 && multiset(s) == multiset(t)
    ensures Handed(amount, Shares(s), total) == Handed(amount, Shares(t), total)
  {
    MembersAgree(s, t);
    MapMultiset((c: Claim) => c.share, s, t);
    BasesIgnoreOrder(amount, Shares(s), Shares(t), total);
    hide Bases;
  }

  lemma {:induction false} SameAbove(amount: Int64, total: Int64, s: seq<Claim>, t: seq<Claim>, k: nat, theta: int)
    requires total != 0 && multiset(s) == multiset(t)
    ensures AboveCount(amount, total, s, theta) == AboveCount(amount, total, t, theta)
    ensures Cutoff(amount, total, s, k, theta) <==> Cutoff(amount, total, t, k, theta)
    ensures multiset(Owners(Filter(OnClaim(Gt(theta), amount, total), s))) == multiset(Owners(Filter(OnClaim(Gt(theta), amount, total), t)))
  {
    var above, tied := OnClaim(Gt(theta), amount, total), OnClaim(Eq(theta), amount, total);
    FilterMultiset(above, s, t);
    FilterMultiset(tied, s, t);
    MembersAgree(Filter(above, s), Filter(above, t));
    MembersAgree(Filter(tied, s), Filter(tied, t));
    MapMultiset(OwnerOf, Filter(above, s), Filter(above, t));
  }

  // ----- the last remainder served

  /** The k-th remainder in the ranking, where `k` units are handed out. */
  function LastRemainder(amount: Int64, total: Int64, s: seq<Claim>, offset: nat): int
    requires total != 0 && offset < |s| && 0 < Handed(amount, Shares(s), total)
  {
    Ranking(amount, Shares(s), total, offset)[Handed(amount, Shares(s), total) - 1].rem
  }

  lemma CutoffHolds(amount: Int64, total: Int64, s: seq<Claim>, offset: nat)
    requires total != 0 && offset < |s| && 0 < Handed(amount, Shares(s), total)
    ensures Cutoff(amount, total, s, Handed(amount, Shares(s), total), LastRemainder(amount, total, s, offset))
  {
    var theta, k := LastRemainder(amount, total, s, offset), Handed(amount, Shares(s), total);
    var r := Ranking(amount, Shares(s), total, offset);
    RankingBlocks(amount, Shares(s), total, offset, theta);
    RankedAbove(amount, total, s, offset, theta);
    RankedTies(amount, total, s, offset, theta);
    TurnedLength(OnClaim(Eq(theta), amount, total), s, offset);
    FilterKept(OnEntry(Gt(theta)), r);
    FilterKept(OnEntry(Lt(theta)), r);
    hide Ranking;
    hide Handed;
    hide Filter;
    hide Turned;
    var above, tied, below := Filter(OnEntry(Gt(theta)), r), Filter(OnEntry(Eq(theta)), r), Filter(OnEntry(Lt(theta)), r);
    assert forall i | 0 <= i < |above| :: above[i].rem > theta;
    assert forall i | 0 <= i < |below| :: below[i].rem < theta;
    InMiddle(above, tied, below, k - 1, theta);
  }

  lemma InMiddle(x: seq<IdxRem>, y: seq<IdxRem>, z: seq<IdxRem>, i: nat, theta: int)
    requires i < |x| + |y| + |z| && (x + y + z)[i].rem == theta
    requires forall j | 0 <= j < |x| :: x[j].rem > theta
    requires forall j | 0 <= j < |z| :: z[j].rem < theta
    ensures |x| <= i < |x| + |y|
  {
    ConcatAt(x, y, z, i);
  }

  /** What `u` gets wherever the tied claims lie: quotients, and a unit for each claim above `theta`. */
  function Fixed(amount: Int64, total: Int64, s: seq<Claim>, theta: int, u: int): int
    requires total != 0
  {
    Total(RowItems(Owners(s), Bases(amount, Shares(s), total)), u) + multiset(Owners(Filter(OnClaim(Gt(theta), amount, total), s)))[u]
  }

  lemma SameFixed(amount: Int64, total: Int64, s: seq<Claim>, t: seq<Claim>, theta: int, u: int)
    requires total != 0 && multiset(s) == multiset(t)
    ensures Fixed(amount, total, s, theta, u) == Fixed(amount, total, t, theta, u)
  {
    QuotientTotals(amount, total, s, t, u);
    SameAbove(amount, total, s, t, 0, theta);
    hide Total;
    hide Filter;
    hide Bases;
  }

  /** That, and units for the first tied claims. */
  lemma TotalSplit(amount: Int64, total: Int64, s: seq<Claim>, offset: nat, theta: int, k: nat, c: nat, u: int)
    requires total != 0 && offset < |s| && (total >= 2 || total <= -2)
    requires 0 < k == Handed(amount, Shares(s), total) && Cutoff(amount, total, s, k, theta) && c == k - AboveCount(amount, total, s, theta)
    ensures c <= |Turned(OnClaim(Eq(theta), amount, total), s, offset)|
    ensures TotalOf(amount, total, s, offset, u)
         == Fixed(amount, total, s, theta, u) + Order.Gets(OnClaim(Eq(theta), amount, total), s, offset, c, u)
  {
    hide Handed;
    hide Ranking;
    hide Turned;
    hide Filter;
    hide OwnerAt;
    hide Total;
    hide Cutoff;
    hide AboveCount;
    OwnerTotal(amount, total, s, offset, u);
    BonusOwners(amount, total, s, offset, k, theta);
  }

  // ----- the condition

  /** The order matters only through the tied claims of the owner at the offset. */
  ghost predicate OrderFree(amount: Int64, total: Int64, s: seq<Claim>, offset: nat)
    requires total != 0 && offset < |s|
  {
    var k := Handed(amount, Shares(s), total);
    k <= 0 ||
      var theta := LastRemainder(amount, total, s, offset);
      var c := k - AboveCount(amount, total, s, theta);
      c >= 0 && Order.Unaffected(OnClaim(Eq(theta), amount, total), s, offset, c)
  }

  ghost predicate AlwaysSame(amount: Int64, total: Int64, s: seq<Claim>, offset: nat) {
    forall t, u | Order.Rearranges(s, t) :: TotalOf(amount, total, t, offset, u) == TotalOf(amount, total, s, offset, u)
  }

  lemma NothingHanded(amount: Int64, total: Int64, s: seq<Claim>, t: seq<Claim>, offset: nat, u: int)
    requires total != 0 && offset < |s| && multiset(s) == multiset(t) && |s| == |t| && Handed(amount, Shares(s), total) <= 0
    ensures TotalOf(amount, total, s, offset, u) == TotalOf(amount, total, t, offset, u)
  {
    SameHanded(amount, total, s, t);
    hide Ranking;
    hide Bases;
    hide Handed;
    hide Apportioned;
    hide OwnerAt;
    OwnerTotal(amount, total, s, offset, u);
    OwnerTotal(amount, total, t, offset, u);
    QuotientTotals(amount, total, s, t, u);
  }

  /** Two arrangements differ for an owner by what the tied claims are served. */
  lemma TotalsCompared(amount: Int64, total: Int64, s: seq<Claim>, t: seq<Claim>, offset: nat, theta: int, c: nat, u: int)
    requires total != 0 && offset < |s| && (total >= 2 || total <= -2) && multiset(s) == multiset(t) && |s| == |t|
    requires 0 < Handed(amount, Shares(s), total) && Cutoff(amount, total, s, Handed(amount, Shares(s), total), theta)
    requires c == Handed(amount, Shares(s), total) - AboveCount(amount, total, s, theta)
    ensures var tied := OnClaim(Eq(theta), amount, total);
            && c <= |Turned(tied, s, offset)| && c <= |Turned(tied, t, offset)|
            && TotalOf(amount, total, s, offset, u) - TotalOf(amount, total, t, offset, u)
               == Order.Gets(tied, s, offset, c, u) - Order.Gets(tied, t, offset, c, u)
  {
    var k := Handed(amount, Shares(s), total);
    hide *;
    SameHanded(amount, total, s, t);
    SameAbove(amount, total, s, t, k, theta);
    SameFixed(amount, total, s, t, theta, u);
    TotalSplit(amount, total, s, offset, theta, k, c, u);
    TotalSplit(amount, total, t, offset, theta, k, c, u);
  }

  /** Every arrangement gives every owner the same total if and only if the condition holds. */
  lemma AlwaysSameIff(amount: Int64, total: Int64, s: seq<Claim>, offset: nat)
    requires Sorted(s, Order.ByOwner()) && offset < |s| && total != 0
    requires total >= 2 || total <= -2 || Handed(amount, Shares(s), total) == 0
    ensures AlwaysSame(amount, total, s, offset) <==> OrderFree(amount, total, s, offset)
    ensures !OrderFree(amount, total, s, offset) ==>
              var tied, w := OnClaim(Eq(LastRemainder(amount, total, s, offset)), amount, total), s[offset].owner;
              var r, t := Order.Arranged(tied, s, w, true), Order.Arranged(tied, s, w, false);
              && Order.Rearranges(s, r) && Order.Rearranges(s, t)
              && TotalOf(amount, total, r, offset, w) < TotalOf(amount, total, t, offset, w)
  {
    if Handed(amount, Shares(s), total) <= 0 {
      forall t, u | Order.Rearranges(s, t)
        ensures TotalOf(amount, total, t, offset, u) == TotalOf(amount, total, s, offset, u)
      {
        MembersAgree(s, t);
        NothingHanded(amount, total, s, t, offset, u);
      }
    } else if OrderFree(amount, total, s, offset) {
      FreeIsSame(amount, total, s, offset);
    } else {
      BoundIsDifferent(amount, total, s, offset);
    }
  }

  /** The last remainder served, and how many of those who tie at it are. */
  lemma AtCutoff(amount: Int64, total: Int64, s: seq<Claim>, offset: nat) returns (theta: int, c: nat)
    requires total != 0 && offset < |s| && 0 < Handed(amount, Shares(s), total)
    ensures theta == LastRemainder(amount, total, s, offset)
    ensures Cutoff(amount, total, s, Handed(amount, Shares(s), total), theta)
    ensures c == Handed(amount, Shares(s), total) - AboveCount(amount, total, s, theta)
    ensures OrderFree(amount, total, s, offset) <==> Order.Unaffected(OnClaim(Eq(theta), amount, total), s, offset, c)
  {
    theta := LastRemainder(amount, total, s, offset);
    CutoffHolds(amount, total, s, offset);
    c := Handed(amount, Shares(s), total) - AboveCount(amount, total, s, theta);
    hide Handed;
    hide Ranking;
    hide AboveCount;
    hide Order.Unaffected;
  }

  lemma FreeIsSame(amount: Int64, total: Int64, s: seq<Claim>, offset: nat)
    requires Sorted(s, Order.ByOwner()) && offset < |s| && (total >= 2 || total <= -2)
    requires 0 < Handed(amount, Shares(s), total) && OrderFree(amount, total, s, offset)
    ensures AlwaysSame(amount, total, s, offset)
  {
    hide Handed;
    hide OrderFree;
    hide TotalOf;
    hide Order.Unaffected;
    var theta, c := AtCutoff(amount, total, s, offset);
    forall t, u | Order.Rearranges(s, t)
      ensures TotalOf(amount, total, t, offset, u) == TotalOf(amount, total, s, offset, u)
    {
      MembersAgree(s, t);
      assert multiset(s) == multiset(t);
      hide *;
      TotalsCompared(amount, total, s, t, offset, theta, c, u);
      Order.UnaffectedCounts(OnClaim(Eq(theta), amount, total), s, t, offset, c, u);
    }
  }

  lemma BoundIsDifferent(amount: Int64, total: Int64, s: seq<Claim>, offset: nat)
    requires Sorted(s, Order.ByOwner()) && offset < |s| && (total >= 2 || total <= -2)
    requires 0 < Handed(amount, Shares(s), total) && !OrderFree(amount, total, s, offset)
    ensures !AlwaysSame(amount, total, s, offset)
    ensures var tied, w := OnClaim(Eq(LastRemainder(amount, total, s, offset)), amount, total), s[offset].owner;
            var r, t := Order.Arranged(tied, s, w, true), Order.Arranged(tied, s, w, false);
            && Order.Rearranges(s, r) && Order.Rearranges(s, t)
            && TotalOf(amount, total, r, offset, w) < TotalOf(amount, total, t, offset, w)
  {
    var w := s[offset].owner;
    hide *;
    var theta, c := AtCutoff(amount, total, s, offset);
    var tied := OnClaim(Eq(theta), amount, total);
    var r, t := Order.Arranged(tied, s, w, true), Order.Arranged(tied, s, w, false);
    TotalsCompared(amount, total, s, s, offset, theta, c, w);
    Order.AffectedDiffers(tied, s, offset, c, w);
    SameClaims(s, r);
    SameClaims(s, t);
    TotalsCompared(amount, total, s, r, offset, theta, c, w);
    TotalsCompared(amount, total, s, t, offset, theta, c, w);
    NotAlways(amount, total, s, offset, r, t, w);
  }

  lemma SameClaims(s: seq<Claim>, t: seq<Claim>)
    requires Order.Rearranges(s, t)
    ensures multiset(s) == multiset(t)
  {
  }

  lemma NotAlways(amount: Int64, total: Int64, s: seq<Claim>, offset: nat, r: seq<Claim>, t: seq<Claim>, w: int)
    requires Order.Rearranges(s, r) && Order.Rearranges(s, t)
    requires TotalOf(amount, total, r, offset, w) < TotalOf(amount, total, t, offset, w)
    ensures !AlwaysSame(amount, total, s, offset)
  {
    hide TotalOf;
    hide Order.Rearranges;
  }
}
