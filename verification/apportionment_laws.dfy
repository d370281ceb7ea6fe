/** What Hamilton apportionment promises while every product fits in int64. */
module ApportionmentLaws {
  import opened Numbers
  import opened Sorting
  import opened Apportionment

  /** The calls the split functions make: a positive total that is the sum of non-negative
      shares, and no product outside int64. */
  ghost predicate InRange(amount: Int64, shares: seq<Int64>, total: Int64) {
    && amount >= 0 && total > 0 && Sum(shares) == total
    && forall i | 0 <= i < |shares| :: shares[i] >= 0 && amount * shares[i] < TWO_63
  }

  function Products(amount: int, shares: seq<int>): (r: seq<int>)
    ensures |r| == |shares|
  {
    seq(|shares|, i requires 0 <= i < |shares| => amount * shares[i])
  }

  /** `bases` and `rems` are the quotients and remainders of `products` by `total`. */
  ghost predicate Division(products: seq<int>, total: int, bases: seq<int>, rems: seq<int>) {
    && total > 0 && |products| == |bases| == |rems|
    && forall i | 0 <= i < |products| :: products[i] == rems[i] + total * bases[i] && 0 <= rems[i] < total
  }

  /** Scaled distances of an allocation from the exact proportions. */
  function Distances(products: seq<int>, total: int, alloc: seq<int>): (r: seq<int>)
    requires |alloc| == |products|
    ensures |r| == |products|
  {
    seq(|products|, i requires 0 <= i < |products| => Abs(total * alloc[i] - products[i]))
  }

  // ----- exact quotients and the leftover

  lemma DivisionFact(p: int, total: int)
    requires p >= 0 && total > 0
    ensures p == p % total + total * (p / total) && p / total >= 0
  {
  }

  lemma QuotientAtMost(amount: int, share: int, total: int)
    requires 0 <= amount && 0 <= share <= total && total > 0
    ensures amount * share <= amount * total && amount * share / total <= amount
  {
    var q := amount * share / total;
    DivisionFact(amount * share, total);
    MulOrder(amount, share, total);
    if q > amount {
      MulGap(total, amount, q);
    }
  }

  /** Inside the range the machine's quotients and remainders are the exact ones. */
  lemma ExactQuotients(amount: Int64, shares: seq<Int64>, total: Int64)
    requires InRange(amount, shares, total)
    ensures Division(Products(amount, shares), total, Bases(amount, shares, total), Remainders(amount, shares, total))
    ensures forall i | 0 <= i < |shares| ::
              && Base(amount, shares[i], total) == amount * shares[i] / total
              && 0 <= Base(amount, shares[i], total) <= amount
  {
    SumNonNegative(shares);
    forall i | 0 <= i < |shares|
      ensures Base(amount, shares[i], total) == amount * shares[i] / total
      ensures Remainder(amount, shares[i], total) == amount * shares[i] % total
      ensures 0 <= Base(amount, shares[i], total) <= amount
      ensures amount * shares[i] == Remainder(amount, shares[i], total) + total * Base(amount, shares[i], total)
    {
      assert 0 <= amount * shares[i];
      QuotientAtMost(amount, shares[i], total);
      DivisionFact(amount * shares[i], total);
    }
  }

  lemma {:induction false} ProductsSum(amount: int, shares: seq<int>)
    ensures Sum(Products(amount, shares)) == amount * Sum(shares)
  {
    var zeros := seq(|shares|, _ => 0);
    SumZero(zeros);
    SumLinear(zeros, shares, Products(amount, shares), amount);
  }

  lemma {:induction false} SumBelow(s: seq<int>, bound: int)
    requires forall i | 0 <= i < |s| :: s[i] < bound
    ensures s != [] ==> Sum(s) < bound * |s|
  {
    if s != [] {
      var t := s[..|s| - 1];
      SumBelow(t, bound);
      assert bound * |s| == bound * |t| + bound;
    }
  }

  lemma LeftoverBounds(total: int, amount: int, given: int, rest: int, n: int)
    requires total > 0 && amount * total == rest + total * given && 0 <= rest < total * n
    ensures total * (amount - given) == rest && 0 <= amount - given < n
  {
    var k := amount - given;
    assert total * k == total * amount - total * given;
    if k < 0 { MulGap(total, k, 0); }
    if k >= n { MulOrder(total, n, k); }
  }

  lemma {:induction false} LeftoverOf(products: seq<int>, total: int, bases: seq<int>, rems: seq<int>, amount: int)
    requires Division(products, total, bases, rems) && Sum(products) == amount * total
    requires products != []
    ensures total * (amount - Sum(bases)) == Sum(rems)
    ensures 0 <= amount - Sum(bases) < |products|
  {
    SumLinear(rems, bases, products, total);
    SumNonNegative(rems);
    SumBelow(rems, total);
    LeftoverBounds(total, amount, Sum(bases), Sum(rems), |products|);
  }

  /** The leftover is exact and smaller than the number of shares, so the bonus loop is
      never cut short by its `i < n` guard. */
  lemma LeftoverExact(amount: Int64, shares: seq<Int64>, total: Int64)
    requires InRange(amount, shares, total)
    ensures shares != []
    ensures var k := Leftover(amount, shares, total);
            && k == amount - Sum(Bases(amount, shares, total))
            && 0 <= k < |shares|
            && total * k == Sum(Remainders(amount, shares, total))
  {
    assert shares != [];
    var b := Bases(amount, shares, total);
    ExactQuotients(amount, shares, total);
    ProductsSum(amount, shares);
    LeftoverOf(Products(amount, shares), total, b, Remainders(amount, shares, total), amount);
    SumNonNegative(b);
    assert 0 <= Sum(b) <= amount;
    assert Wrap(Sum(b)) == Sum(b);
    assert Wrap(amount - Sum(b)) == amount - Sum(b);
  }

  // ----- who gets a bonus

  /** What the ranking of `rems` is: every index once, ordered by the comparator. */
  ghost predicate Ranks(ranking: seq<IdxRem>, rems: seq<int>, offset: nat) {
    && |ranking| == |rems| && offset < |rems|
    && (forall p | 0 <= p < |ranking| :: ranking[p].idx < |rems| && ranking[p].rem == rems[ranking[p].idx])
    && (forall p, q | 0 <= p < q < |ranking| :: ranking[p].idx != ranking[q].idx)
    && (forall i | 0 <= i < |rems| :: IdxRem(i, rems[i]) in ranking)
    && Sorted(ranking, Ahead(|rems|, offset))
  }

  function FirstOf(ranking: seq<IdxRem>, k: nat): set<int>
    requires k <= |ranking|
  {
    set e | e in ranking[..k] :: e.idx
  }

  lemma BonusIsTop(amount: Int64, shares: seq<Int64>, total: Int64, offset: nat)
    requires InRange(amount, shares, total) && offset < |shares|
    ensures Ranks(Ranking(amount, shares, total, offset), Remainders(amount, shares, total), offset)
    ensures 0 <= Leftover(amount, shares, total) < |shares|
    ensures Bonus(amount, shares, total, offset) == FirstOf(Ranking(amount, shares, total, offset), Leftover(amount, shares, total))
  {
    LeftoverExact(amount, shares, total);
    RankingIsPermutation(amount, shares, total, offset);
    RankingIsSorted(amount, shares, total, offset);
  }

  /** The indices of the first `k` ranks, in ranking order. */
  function TopIds(ranking: seq<IdxRem>, k: nat): (r: seq<int>)
    requires k <= |ranking|
    ensures |r| == k
  {
    seq(k, p requires 0 <= p < k => ranking[p].idx)
  }

  lemma FirstOfIsTopIds(ranking: seq<IdxRem>, k: nat)
    requires k <= |ranking|
    ensures FirstOf(ranking, k) == set i | i in TopIds(ranking, k)
  {
    var top, ids := ranking[..k], TopIds(ranking, k);
    forall i
      ensures i in FirstOf(ranking, k) <==> i in ids
    {
      if i in ids {
        var p :| 0 <= p < k && ids[p] == i;
        assert top[p] in top;
      }
      if i in FirstOf(ranking, k) {
        var e :| e in top && e.idx == i;
        var p :| 0 <= p < k && top[p] == e;
        assert ids[p] == i;
      }
    }
  }

  lemma FirstOfSize(ranking: seq<IdxRem>, rems: seq<int>, offset: nat, k: nat)
    requires Ranks(ranking, rems, offset) && k <= |ranking|
    ensures |FirstOf(ranking, k)| == k
    ensures forall i | i in FirstOf(ranking, k) :: 0 <= i < |rems|
    ensures forall p | 0 <= p < |ranking| :: ranking[p].idx in FirstOf(ranking, k) <==> p < k
  {
    hide FirstOf;
    var ids := TopIds(ranking, k);
    FirstOfIsTopIds(ranking, k);
    DistinctCount(ids);
    forall p | 0 <= p < |ranking|
      ensures ranking[p].idx in ids <==> p < k
    {
      if p < k { assert ids[p] == ranking[p].idx; }
    }
  }

  function ThresholdOf(ranking: seq<IdxRem>, k: nat, total: int): int
    requires k <= |ranking|
  {
    if k > 0 then ranking[k - 1].rem else total
  }

  /** No bonus index has a remainder below `theta`, no other index one above. */
  ghost predicate Threshold(rems: seq<int>, bonus: set<int>, total: int, theta: int) {
    && 0 <= theta <= total
    && forall i | 0 <= i < |rems| :: if i in bonus then rems[i] >= theta else rems[i] <= theta
  }

  lemma RankingThreshold(ranking: seq<IdxRem>, rems: seq<int>, offset: nat, k: nat, total: int)
    requires Ranks(ranking, rems, offset) && k <= |ranking|
    requires total >= 0 && forall i | 0 <= i < |rems| :: 0 <= rems[i] <= total
    ensures Threshold(rems, FirstOf(ranking, k), total, ThresholdOf(ranking, k, total))
  {
    FirstOfSize(ranking, rems, offset, k);
    var theta := ThresholdOf(ranking, k, total);
    var less := Ahead(|rems|, offset);
    forall i | 0 <= i < |rems|
      ensures if i in FirstOf(ranking, k) then rems[i] >= theta else rems[i] <= theta
    {
      assert IdxRem(i, rems[i]) in ranking;
      var p :| 0 <= p < |ranking| && ranking[p] == IdxRem(i, rems[i]);
      if p < k {
        assert p == k - 1 || !less(ranking[k - 1], ranking[p]);
      } else if k > 0 {
        assert !less(ranking[p], ranking[k - 1]);
      }
    }
  }

  /** One remainder separates the indices that got a bonus from those that did not. */
  lemma OneThreshold(amount: Int64, shares: seq<Int64>, total: Int64, offset: nat) returns (theta: int)
    requires InRange(amount, shares, total) && offset < |shares|
    ensures Threshold(Remainders(amount, shares, total), Bonus(amount, shares, total, offset), total, theta)
  {
    BonusIsTop(amount, shares, total, offset);
    ExactQuotients(amount, shares, total);
    var ranking := Ranking(amount, shares, total, offset);
    var k := Leftover(amount, shares, total);
    theta := ThresholdOf(ranking, k, total);
    RankingThreshold(ranking, Remainders(amount, shares, total), offset, k, total);
  }

  lemma BonusSize(amount: Int64, shares: seq<Int64>, total: Int64, offset: nat)
    requires InRange(amount, shares, total) && offset < |shares|
    ensures |Bonus(amount, shares, total, offset)| == Leftover(amount, shares, total)
    ensures forall i | i in Bonus(amount, shares, total, offset) :: 0 <= i < |shares|
  {
    BonusIsTop(amount, shares, total, offset);
    FirstOfSize(Ranking(amount, shares, total, offset), Remainders(amount, shares, total), offset, Leftover(amount, shares, total));
  }

  // ----- the promises

  lemma ApportionedAt(amount: Int64, shares: seq<Int64>, total: Int64, offset: nat, i: nat)
    requires total != 0 && i < |shares|
    ensures Apportioned(amount, shares, total, offset)[i]
         == Wrap(Base(amount, shares[i], total) + if i in Bonus(amount, shares, total, offset) then 1 else 0)
  {
    hide Bonus;
  }

  lemma ResultAt(amount: Int64, shares: seq<Int64>, total: Int64, offset: nat, i: nat)
    requires InRange(amount, shares, total) && offset < |shares| && i < |shares|
    ensures Apportioned(amount, shares, total, offset)[i]
         == Bases(amount, shares, total)[i] + (if i in Bonus(amount, shares, total, offset) then 1 else 0)
  {
    ExactQuotients(amount, shares, total);
    LeftoverExact(amount, shares, total);
    BonusSize(amount, shares, total, offset);
    ApportionedAt(amount, shares, total, offset, i);
    var b := Bases(amount, shares, total);
    var bonus := Bonus(amount, shares, total, offset);
    SumNonNegative(b);
    // a bonus means a unit was left over, so this quotient is below the amount
    assert i in bonus ==> |bonus| > 0;
    assert b[i] == Base(amount, shares[i], total) <= Sum(b);
  }

  /** Each index gets the floor of its quota, or one more when it is a bonus index. */
  lemma Quota(amount: Int64, shares: seq<Int64>, total: Int64, offset: nat, i: nat)
    requires InRange(amount, shares, total) && offset < |shares| && i < |shares|
    ensures Apportioned(amount, shares, total, offset)[i]
         == amount * shares[i] / total + (if i in Bonus(amount, shares, total, offset) then 1 else 0)
  {
    ExactQuotients(amount, shares, total);
    ResultAt(amount, shares, total, offset, i);
  }

  /** Nothing is lost or invented. */
  lemma Conservation(amount: Int64, shares: seq<Int64>, total: Int64, offset: nat)
    requires InRange(amount, shares, total) && offset < |shares|
    ensures Sum(Apportioned(amount, shares, total, offset)) == amount
  {
    var out: seq<int> := Apportioned(amount, shares, total, offset);
    var bonus := Bonus(amount, shares, total, offset);
    var b := Bases(amount, shares, total);
    BonusSize(amount, shares, total, offset);
    LeftoverExact(amount, shares, total);
    var ind := seq(|shares|, i requires 0 <= i < |shares| => if i in bonus then 1 else 0);
    SumIndicator(ind, bonus);
    forall i | 0 <= i < |shares|
      ensures out[i] == b[i] + 1 * ind[i]
    {
      ResultAt(amount, shares, total, offset, i);
    }
    SumLinear(b, ind, out, 1);
  }

  lemma {:induction false} SumOverBonus(rems: seq<int>, bonus: set<int>, cap: int)
    requires forall i | i in bonus :: 0 <= i < |rems|
    requires forall i | 0 <= i < |rems| :: rems[i] <= if i in bonus then cap else 0
    ensures Sum(rems) <= cap * |bonus|
  {
    var ind := seq(|rems|, j requires 0 <= j < |rems| => if j in bonus then 1 else 0);
    var caps := Products(cap, ind);
    SumIndicator(ind, bonus);
    ProductsSum(cap, ind);
    forall j | 0 <= j < |rems|
      ensures rems[j] <= caps[j]
    {
      assert ind[j] == if j in bonus then 1 else 0;
    }
    SumMonotone(rems, caps);
  }

  lemma {:induction false} NoBonusWithoutRemainder(rems: seq<int>, bonus: set<int>, total: int, theta: int, i: nat)
    requires total > 0 && Threshold(rems, bonus, total, theta)
    requires forall i | 0 <= i < |rems| :: 0 <= rems[i] < total
    requires forall i | i in bonus :: 0 <= i < |rems|
    requires total * |bonus| == Sum(rems)
    requires i < |rems| && rems[i] == 0
    ensures i !in bonus
  {
    if i in bonus {
      // then theta is 0: outside the bonus set every remainder is 0, inside it is below total
      SumOverBonus(rems, bonus, total - 1);
      MulGap(|bonus|, total - 1, total);
    }
  }

  lemma ZeroRemainder(amount: Int64, shares: seq<Int64>, total: Int64, offset: nat)
    requires InRange(amount, shares, total) && offset < |shares|
    ensures forall i | 0 <= i < |shares| && Remainders(amount, shares, total)[i] == 0 :: i !in Bonus(amount, shares, total, offset)
  {
    var theta := OneThreshold(amount, shares, total, offset);
    ExactQuotients(amount, shares, total);
    BonusSize(amount, shares, total, offset);
    LeftoverExact(amount, shares, total);
    var rems, bonus := Remainders(amount, shares, total), Bonus(amount, shares, total, offset);
    forall i | 0 <= i < |shares| && rems[i] == 0
      ensures i !in bonus
    {
      NoBonusWithoutRemainder(rems, bonus, total, theta, i);
    }
  }

  /** A share of nothing gets nothing. */
  lemma ZeroShare(amount: Int64, shares: seq<Int64>, total: Int64, offset: nat, i: nat)
    requires InRange(amount, shares, total) && offset < |shares| && i < |shares| && shares[i] == 0
    ensures Apportioned(amount, shares, total, offset)[i] == 0
  {
    Quota(amount, shares, total, offset, i);
    ZeroRemainder(amount, shares, total, offset);
    assert amount * shares[i] == 0;
    assert Remainders(amount, shares, total)[i] == 0;
  }

  lemma RemainderExact(amount: Int64, shares: seq<Int64>, total: Int64, i: nat)
    requires InRange(amount, shares, total) && i < |shares|
    ensures Remainders(amount, shares, total)[i] == amount * shares[i] % total
  {
    MulOrder(amount, 0, shares[i]);
  }

  lemma LargerGetsMore(total: int, theta: int, bp: int, rp: int, bonusP: bool, bq: int, rq: int, bonusQ: bool)
    requires 0 <= rp < total && 0 <= rq < total
    requires if bonusP then rp >= theta else rp <= theta
    requires if bonusQ then rq >= theta else rq <= theta
    requires rp + total * bp <= rq + total * bq
    requires rp + total * bp == rq + total * bq ==> !bonusP
    ensures bp + (if bonusP then 1 else 0) <= bq + (if bonusQ then 1 else 0)
  {
    if bp > bq { MulGap(total, bq, bp); }
  }

  lemma EqualProducts(amount: int, s: int, t: int)
    requires amount >= 0 && 0 <= s < t
    ensures 0 <= amount * s <= amount * t
    ensures amount * s == amount * t ==> amount * s == 0
  {
    MulOrder(amount, 0, s);
    MulGap(amount, s, t);
  }

  lemma ZeroDivision(total: int, b: int, r: int)
    requires 0 <= r < total && r + total * b == 0
    ensures r == 0
  {
    if b < 0 { MulGap(total, b, 0); }
    if b > 0 { MulGap(total, 0, b); }
  }

  /** A larger share never gets less. */
  lemma Monotone(amount: Int64, shares: seq<Int64>, total: Int64, offset: nat, i: nat, j: nat)
    requires InRange(amount, shares, total) && offset < |shares|
    requires i < |shares| && j < |shares| && shares[i] < shares[j]
    ensures Apportioned(amount, shares, total, offset)[i] <= Apportioned(amount, shares, total, offset)[j]
  {
    hide Bonus;
    hide Base;
    hide Remainder;
    var bases, rems := Bases(amount, shares, total), Remainders(amount, shares, total);
    var bonus := Bonus(amount, shares, total, offset);
    ExactQuotients(amount, shares, total);
    ResultAt(amount, shares, total, offset, i);
    ResultAt(amount, shares, total, offset, j);
    EqualProducts(amount, shares[i], shares[j]);
    assert Products(amount, shares)[i] == amount * shares[i] && Products(amount, shares)[j] == amount * shares[j];
    var theta := OneThreshold(amount, shares, total, offset);
    ZeroRemainder(amount, shares, total, offset);
    if amount * shares[i] == amount * shares[j] { ZeroDivision(total, bases[i], rems[i]); }
    LargerGetsMore(total, theta, bases[i], rems[i], i in bonus, bases[j], rems[j], j in bonus);
  }

  // ----- optimality

  lemma ProductSigns(total: int, theta: int, d: int)
    requires 0 <= theta <= total
    ensures d >= 1 ==> theta * d >= theta && total * d >= total
    ensures d <= 0 ==> total * d <= theta * d <= 0
    ensures (total - 2 * theta) * d == total * d - 2 * (theta * d)
  {
    if d >= 1 {
      MulOrder(theta, 1, d);
      MulOrder(total, 1, d);
    } else {
      MulOrder(theta, d, 0);
      MulOrder(total - theta, d, 0);
      assert (total - theta) * d == total * d - theta * d;
    }
  }

  /** A convex distance lies above its tangent of slope `total - 2 * theta`, at an index
      without a bonus. */
  lemma TangentBelow(total: int, rem: int, theta: int, d: int)
    requires total > 0 && 0 <= rem <= theta <= total && rem < total
    ensures Abs(total * d - rem) >= rem + (total - 2 * theta) * d
  {
    ProductSigns(total, theta, d);
  }

  /** The same at an index that got the bonus, measured from its quotient plus one. */
  lemma TangentAbove(total: int, rem: int, theta: int, d: int)
    requires total > 0 && 0 <= theta <= rem < total
    ensures Abs(total * d - rem) >= total - rem + (total - 2 * theta) * (d - 1)
  {
    ProductSigns(total, theta, d);
    assert (total - 2 * theta) * (d - 1) == (total - 2 * theta) * d - total + 2 * theta;
  }

  lemma SupportingLine(total: int, base: int, rem: int, bonus: bool, theta: int, x: int)
    requires total > 0 && 0 <= rem < total && 0 <= theta <= total
    requires if bonus then rem >= theta else rem <= theta
    ensures var out := base + if bonus then 1 else 0;
            var q := rem + total * base;
            Abs(total * x - q) >= Abs(total * out - q) + (total - 2 * theta) * (x - out)
  {
    var d := x - base;
    assert total * x - (rem + total * base) == total * d - rem by { assert total * d == total * x - total * base; }
    if bonus {
      assert total * (base + 1) == total * base + total;
      TangentAbove(total, rem, theta, d);
      assert x - (base + 1) == d - 1;
    } else {
      TangentBelow(total, rem, theta, d);
    }
  }

  /** Distances above a supporting line everywhere are, in total, above it at the total shift. */
  lemma {:induction false} SupportSum(near: seq<int>, far: seq<int>, moved: seq<int>, slope: int)
    requires |near| == |far| == |moved|
    requires forall i | 0 <= i < |near| :: far[i] >= near[i] + slope * moved[i]
    ensures Sum(far) >= Sum(near) + slope * Sum(moved)
  {
    if near != [] {
      var k := |near| - 1;
      SupportSum(near[..k], far[..k], moved[..k], slope);
      assert far[k] >= near[k] + slope * moved[k];
      assert slope * (Sum(moved[..k]) + moved[k]) == slope * Sum(moved[..k]) + slope * moved[k];
    }
  }

  lemma SupportedEverywhere(products: seq<int>, total: int, bases: seq<int>, rems: seq<int>, bonus: set<int>,
                            theta: int,
                            out: seq<int>, alloc: seq<int>, moved: seq<int>)
    requires Division(products, total, bases, rems) && Threshold(rems, bonus, total, theta)
    requires |out| == |alloc| == |moved| == |products|
    requires forall i | 0 <= i < |out| :: out[i] == (bases[i] + if i in bonus then 1 else 0) && moved[i] == alloc[i] - out[i]
    ensures forall i | 0 <= i < |products| ::
              Distances(products, total, alloc)[i] >= Distances(products, total, out)[i] + (total - 2 * theta) * moved[i]
  {
    forall i | 0 <= i < |products|
      ensures Distances(products, total, alloc)[i] >= Distances(products, total, out)[i] + (total - 2 * theta) * moved[i]
    {
      SupportingLine(total, bases[i], rems[i], i in bonus, theta, alloc[i]);
    }
  }

  /** No other way of handing out the amount in whole units, negative ones included, comes
      closer to the exact proportions; the threshold remainder is the certificate. */
  lemma {:induction false} Optimality(amount: Int64, shares: seq<Int64>, total: Int64, offset: nat, alloc: seq<int>)
    requires InRange(amount, shares, total) && offset < |shares|
    requires |alloc| == |shares| && Sum(alloc) == amount
    ensures Sum(Distances(Products(amount, shares), total, Apportioned(amount, shares, total, offset)))
         <= Sum(Distances(Products(amount, shares), total, alloc))
  {
    hide *;
    var theta := OneThreshold(amount, shares, total, offset);
    ExactQuotients(amount, shares, total);
    forall i | 0 <= i < |shares|
      ensures Apportioned(amount, shares, total, offset)[i]
           == Bases(amount, shares, total)[i] + if i in Bonus(amount, shares, total, offset) then 1 else 0
    {
      ResultAt(amount, shares, total, offset, i);
    }
    Conservation(amount, shares, total, offset);
    var products := Products(amount, shares);
    var bases, rems := Bases(amount, shares, total), Remainders(amount, shares, total);
    var bonus := Bonus(amount, shares, total, offset);
    var out: seq<int> := Apportioned(amount, shares, total, offset);
    var moved := seq(|shares|, i requires 0 <= i < |shares| => alloc[i] - out[i]);
    SumLinear(alloc, out, moved, -1);
    SupportedEverywhere(products, total, bases, rems, bonus, theta, out, alloc, moved);
    SupportSum(Distances(products, total, out), Distances(products, total, alloc), moved, total - 2 * theta);
  }
}
