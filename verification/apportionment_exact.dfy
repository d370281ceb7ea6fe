/** When apportionment conserves the amount on any int64 input, wrap-around included. */
module ApportionmentExact {
  import opened Numbers
  import opened Sorting
  import opened Apportionment
  import opened ApportionmentLaws

  /** Units the truncated quotients leave over, in exact integers. */
  function Undistributed(amount: Int64, shares: seq<Int64>, total: Int64): int
    requires total != 0
  {
    amount - Sum(Bases(amount, shares, total))
  }

  /** The guard of the bonus loop: what is left over can be handed out one unit per index. */
  predicate Coverable(amount: Int64, shares: seq<Int64>, total: Int64)
    requires total != 0
  {
    0 <= Undistributed(amount, shares, total) <= |shares|
  }

  // ----- congruence modulo 2^64

  predicate Congruent(x: int, y: int) { (x - y) % TWO_64 == 0 }

  lemma CongruentIs(x: int, y: int) returns (k: int)
    requires Congruent(x, y)
    ensures x == y + TWO_64 * k
  {
    k := (x - y) / TWO_64;
  }

  lemma CongruentBy(x: int, y: int, k: int)
    requires x == y + TWO_64 * k
    ensures Congruent(x, y)
  {
  }

  lemma WrapCongruentTo(x: int)
    ensures Congruent(x, Wrap(x)) && Congruent(Wrap(x), x)
  {
    var k := (x - Wrap(x)) / TWO_64;
    CongruentBy(Wrap(x), x, -k);
  }

  lemma CongruentAdd(x: int, y: int, u: int, v: int)
    requires Congruent(x, y) && Congruent(u, v)
    ensures Congruent(x + u, y + v) && Congruent(x - u, y - v)
  {
    var j := CongruentIs(x, y);
    var k := CongruentIs(u, v);
    CongruentBy(x + u, y + v, j + k);
    CongruentBy(x - u, y - v, j - k);
  }

  lemma CongruentScale(c: int, x: int, y: int)
    requires Congruent(x, y)
    ensures Congruent(c * x, c * y)
  {
    var k := CongruentIs(x, y);
    assert c * (TWO_64 * k) == TWO_64 * (c * k);
    CongruentBy(c * x, c * y, c * k);
  }

  lemma CongruentChain(x: int, y: int, z: int)
    requires Congruent(x, y) && Congruent(y, z)
    ensures Congruent(x, z)
  {
    CongruentAdd(x, y, y, z);
    assert (x + y) - (y + z) == x - z;
  }

  lemma {:induction false} SumCongruent(s: seq<int>, t: seq<int>)
    requires |s| == |t| && forall i | 0 <= i < |s| :: Congruent(s[i], t[i])
    ensures Congruent(Sum(s), Sum(t))
  {
    if s != [] {
      var n := |s| - 1;
      SumCongruent(s[..n], t[..n]);
      assert Congruent(s[n], t[n]);
      hide Congruent;
      CongruentAdd(Sum(s[..n]), Sum(t[..n]), s[n], t[n]);
    }
  }

  // ----- a total of one or minus one

  lemma UnitQuotient(x: Int64, total: Int64)
    requires total == 1 || total == -1
    ensures TruncDiv(x, total) == total * x
  {
  }

  lemma UnitBase(amount: Int64, share: Int64, total: Int64)
    requires total == 1 || total == -1
    ensures Congruent(Base(amount, share, total), total * (amount * share))
  {
    var p := Wrap(amount * share);
    UnitQuotient(p, total);
    hide TruncDiv;
    WrapCongruentTo(total * p);
    WrapCongruentTo(amount * share);
    hide Wrap;
    CongruentScale(total, p, amount * share);
    CongruentChain(Base(amount, share, total), total * p, total * (amount * share));
  }

  /** Dividing by a sum of shares of one (or minus one) leaves nothing over in int64. */
  lemma {:induction false} UnitLeftover(amount: Int64, shares: seq<Int64>, total: Int64)
    requires (total == 1 || total == -1) && Wrap(Sum(shares)) == total
    ensures Congruent(amount, Sum(Bases(amount, shares, total)))
  {
    var scaled := Products(total, Products(amount, shares));
    forall i | 0 <= i < |shares|
      ensures Congruent(Bases(amount, shares, total)[i], scaled[i])
    {
      UnitBase(amount, shares[i], total);
    }
    hide Base;
    SumCongruent(Bases(amount, shares, total), scaled);
    ProductsSum(total, Products(amount, shares));
    ProductsSum(amount, shares);
    var d, s := Sum(Bases(amount, shares, total)), Sum(shares);
    WrapCongruentTo(s);
    hide *;
    CongruentScale(total * amount, s, total);
    assert total * (amount * s) == total * amount * s;
    assert total * amount * total == amount;
    CongruentChain(d, total * amount * s, amount);
    CongruentFlip(d, amount);
  }

  lemma CongruentFlip(x: int, y: int)
    requires Congruent(x, y)
    ensures Congruent(y, x)
  {
    var k := CongruentIs(x, y);
    CongruentBy(y, x, -k);
  }

  // ----- the sum of the parts

  lemma QuotientBound(a: int, b: int)
    requires a >= 0 && b > 0
    ensures a == a % b + b * (a / b) && 0 <= a / b <= a && (b >= 2 ==> 2 * (a / b) <= a)
  {
    var q := a / b;
    DivisionFact(a, b);
    assert b * q == q * b;
    MulOrder(q, 1, b);
    if b >= 2 { MulOrder(q, 2, b); }
  }

  lemma SmallQuotient(x: Int64, total: Int64)
    requires total >= 2 || total <= -2
    ensures -(TWO_63 / 2) <= TruncDiv(x, total) <= TWO_63 / 2
  {
    QuotientBound(Abs(x), Abs(total));
  }

  lemma SmallBase(amount: Int64, share: Int64, total: Int64)
    requires total >= 2 || total <= -2
    ensures -(TWO_63 / 2) <= Base(amount, share, total) <= TWO_63 / 2
    ensures Base(amount, share, total) == TruncDiv(Wrap(amount * share), total)
  {
    SmallQuotient(Wrap(amount * share), total);
    hide TruncDiv;
  }

  /** How many units the bonus loop hands out. */
  function Handed(amount: Int64, shares: seq<Int64>, total: Int64): int
    requires total != 0
  {
    Max(0, Min(Leftover(amount, shares, total), |shares|))
  }

  lemma BonusCount(amount: Int64, shares: seq<Int64>, total: Int64, offset: nat)
    requires total != 0 && offset < |shares|
    ensures |Bonus(amount, shares, total, offset)| == Handed(amount, shares, total)
    ensures forall i | i in Bonus(amount, shares, total, offset) :: 0 <= i < |shares|
    ensures Handed(amount, shares, total) == |shares| ==> forall i | 0 <= i < |shares| :: i in Bonus(amount, shares, total, offset)
  {
    RankingIsPermutation(amount, shares, total, offset);
    RankingIsSorted(amount, shares, total, offset);
    hide Leftover;
    hide Remainder;
    var ranking := Ranking(amount, shares, total, offset);
    hide Ranking;
    FirstOfSize(ranking, Remainders(amount, shares, total), offset, Handed(amount, shares, total));
    AllFirst(ranking, Remainders(amount, shares, total), offset);
  }

  lemma AllFirst(ranking: seq<IdxRem>, rems: seq<int>, offset: nat)
    requires Ranks(ranking, rems, offset)
    ensures forall i | 0 <= i < |rems| :: i in FirstOf(ranking, |ranking|)
  {
    FirstOfSize(ranking, rems, offset, |ranking|);
    hide FirstOf;
    forall i | 0 <= i < |rems|
      ensures i in FirstOf(ranking, |ranking|)
    {
      assert IdxRem(i, rems[i]) in ranking;
      var q :| 0 <= q < |ranking| && ranking[q] == IdxRem(i, rems[i]);
    }
  }

  /** A leftover of at least one unit per index gives every index one. */
  lemma AllGetOne(amount: Int64, shares: seq<Int64>, total: Int64, offset: nat)
    requires total != 0 && offset < |shares| && Leftover(amount, shares, total) >= |shares|
    ensures |Apportioned(amount, shares, total, offset)| == |shares|
    ensures forall i | 0 <= i < |shares| :: Apportioned(amount, shares, total, offset)[i] == Wrap(Base(amount, shares[i], total) + 1)
  {
    BonusCount(amount, shares, total, offset);
    HandedIs(amount, shares, total);
    hide *;
    forall i | 0 <= i < |shares|
      ensures Apportioned(amount, shares, total, offset)[i] == Wrap(Base(amount, shares[i], total) + 1)
    {
      ApportionedAt(amount, shares, total, offset, i);
    }
  }

  lemma HandedIs(amount: Int64, shares: seq<Int64>, total: Int64)
    requires total != 0
    ensures Handed(amount, shares, total) == Max(0, Min(Leftover(amount, shares, total), |shares|))
    ensures Leftover(amount, shares, total) >= |shares| ==> Handed(amount, shares, total) == |shares|
  {
  }

  lemma {:induction false} SumWithBonus(out: seq<int>, bases: seq<int>, bonus: set<int>)
    requires |out| == |bases| && forall i | i in bonus :: 0 <= i < |bases|
    requires forall i | 0 <= i < |bases| :: out[i] == bases[i] + if i in bonus then 1 else 0
    ensures Sum(out) == Sum(bases) + |bonus|
  {
    hide Sum;
    var ind := seq(|bases|, i requires 0 <= i < |bases| => if i in bonus then 1 else 0);
    SumIndicator(ind, bonus);
    SumLinear(bases, ind, out, 1);
  }

  /** While no quotient can overflow by one, the parts sum to the quotients and what the loop hands out. */
  lemma PartsSum(amount: Int64, shares: seq<Int64>, total: Int64, offset: nat)
    requires total != 0 && offset < |shares|
    requires total >= 2 || total <= -2 || Handed(amount, shares, total) == 0
    ensures Sum(Apportioned(amount, shares, total, offset))
         == Sum(Bases(amount, shares, total)) + Handed(amount, shares, total)
  {
    BonusCount(amount, shares, total, offset);
    hide *;
    forall i | 0 <= i < |shares|
      ensures Apportioned(amount, shares, total, offset)[i]
           == Bases(amount, shares, total)[i] + if i in Bonus(amount, shares, total, offset) then 1 else 0
    {
      PartAt(amount, shares, total, offset, i);
    }
    SumWithBonus(Apportioned(amount, shares, total, offset), Bases(amount, shares, total), Bonus(amount, shares, total, offset));
  }

  lemma PartAt(amount: Int64, shares: seq<Int64>, total: Int64, offset: nat, i: nat)
    requires total != 0 && offset < |shares| && i < |shares|
    requires total >= 2 || total <= -2 || Handed(amount, shares, total) == 0
    ensures Apportioned(amount, shares, total, offset)[i]
         == Bases(amount, shares, total)[i] + if i in Bonus(amount, shares, total, offset) then 1 else 0
  {
    ApportionedAt(amount, shares, total, offset, i);
    BonusCount(amount, shares, total, offset);
    hide Apportioned;
    hide Bonus;
    hide Handed;
    if total >= 2 || total <= -2 {
      SmallBase(amount, shares[i], total);
      hide Base;
    }
  }

  lemma LeftoverCongruent(amount: Int64, shares: seq<Int64>, total: Int64)
    requires total != 0
    ensures Leftover(amount, shares, total) == Wrap(Undistributed(amount, shares, total))
  {
    var d := Sum(Bases(amount, shares, total));
    WrapCongruentTo(d);
    assert (amount - Wrap(d)) - (amount - d) == d - Wrap(d);
    WrapCongruent(amount - Wrap(d), amount - d);
  }

  /** On every int64 input the split functions can pass, the parts sum to the amount if and only
      if the exact leftover passes the loop's guard. */
  lemma {:induction false} ConservationIff(amount: Int64, shares: seq<Int64>, total: Int64, offset: nat)
    requires total != 0 && offset < |shares| < TWO_63
    requires total >= 2 || Wrap(Sum(shares)) == total
    ensures Sum(Apportioned(amount, shares, total, offset)) == amount <==> Coverable(amount, shares, total)
  {
    hide *;
    GuardIs(amount, shares, total);
    if total == 1 || total == -1 { UnitHandsNothing(amount, shares, total); }
    PartsSum(amount, shares, total, offset);
    ClampIff(amount, Sum(Bases(amount, shares, total)), |shares|);
  }

  lemma GuardIs(amount: Int64, shares: seq<Int64>, total: Int64)
    requires total != 0
    ensures Handed(amount, shares, total) == Max(0, Min(Wrap(amount - Sum(Bases(amount, shares, total))), |shares|))
    ensures Coverable(amount, shares, total) <==> 0 <= amount - Sum(Bases(amount, shares, total)) <= |shares|
  {
    LeftoverCongruent(amount, shares, total);
    hide Leftover;
    hide Bases;
    hide Sum;
    hide Wrap;
  }

  lemma {:induction false} UnitHandsNothing(amount: Int64, shares: seq<Int64>, total: Int64)
    requires (total == 1 || total == -1) && Wrap(Sum(shares)) == total
    ensures Handed(amount, shares, total) == 0
  {
    UnitLeftover(amount, shares, total);
    GuardIs(amount, shares, total);
    var d := Sum(Bases(amount, shares, total));
    hide Bases;
    hide Sum;
    hide Handed;
    WrapCongruent(amount - d, 0);
  }

  lemma ClampIff(amount: int, given: int, n: nat)
    requires n < TWO_63
    ensures given + Max(0, Min(Wrap(amount - given), n)) == amount <==> 0 <= amount - given <= n
  {
  }

  /** Inside the range it always does. */
  lemma InRangeIsCoverable(amount: Int64, shares: seq<Int64>, total: Int64)
    requires InRange(amount, shares, total)
    ensures Coverable(amount, shares, total)
  {
    LeftoverExact(amount, shares, total);
  }

  // ----- totals that are small against 2^64 / n

  lemma PositiveDivision(x: Int64, total: Int64)
    requires total > 0
    ensures x == TruncMod(x, total) + total * TruncDiv(x, total)
    ensures -total < TruncMod(x, total) < total
    ensures -TWO_63 <= TruncDiv(x, total) < TWO_63
  {
    QuotientBound(Abs(x), total);
    assert total * -(Abs(x) / total) == -(total * (Abs(x) / total));
  }

  lemma {:induction false} SumAbove(s: seq<int>, bound: int)
    requires forall i | 0 <= i < |s| :: s[i] > -bound
    ensures s != [] ==> Sum(s) > -bound * |s|
  {
    if s != [] {
      SumAbove(s[..|s| - 1], bound);
      assert -bound * |s| == -bound * (|s| - 1) - bound;
    }
  }

  /** What wrap-around takes from the products. */
  function Lost(products: seq<int>): (r: seq<int>)
    ensures |r| == |products|
  {
    seq(|products|, i requires 0 <= i < |products| => products[i] - Wrap(products[i]))
  }

  lemma LostSum(products: seq<int>)
    requires forall i | 0 <= i < |products| :: products[i] >= 0
    requires exists i | 0 <= i < |products| :: products[i] >= TWO_63
    ensures Sum(Lost(products)) >= TWO_64
  {
    var lost := Lost(products);
    forall i | 0 <= i < |lost|
      ensures lost[i] >= 0 && (products[i] >= TWO_63 ==> lost[i] >= TWO_64)
    {
      var p := products[i];
      var k := (p - Wrap(p)) / TWO_64;
      assert lost[i] == TWO_64 * k;
    }
    SumNonNegative(lost);
  }

  lemma LostUncovered(total: int, n: nat, missing: int, lost: int, rems: int)
    requires total > 0 && 2 * n * total <= TWO_64
    requires total * missing == lost + rems && lost >= TWO_64 && rems > -total * n
    ensures missing > n
  {
    assert 2 * n * total == 2 * (total * n);
    assert -total * n == -(total * n);
    if missing <= n { MulOrder(total, missing, n); }
  }

  lemma {:induction false} WrappedUncovered(amount: Int64, shares: seq<Int64>, total: Int64)
    requires amount >= 0 && total > 0 && Sum(shares) == total && shares != []
    requires forall i | 0 <= i < |shares| :: shares[i] >= 0
    requires exists i | 0 <= i < |shares| :: amount * shares[i] >= TWO_63
    requires 2 * |shares| * total <= TWO_64
    ensures Undistributed(amount, shares, total) > |shares|
  {
    hide *;
    var products := Products(amount, shares);
    var bases, rems := Bases(amount, shares, total), Remainders(amount, shares, total);
    var j :| 0 <= j < |shares| && amount * shares[j] >= TWO_63;
    WrappedDivision(amount, shares, total, j);
    forall i | 0 <= i < |shares|
      ensures products[i] >= 0 && rems[i] > -total && products[i] == rems[i] + total * bases[i] + Lost(products)[i]
    {
      MulOrder(amount, 0, shares[i]);
      WrappedDivision(amount, shares, total, i);
    }
    LostSum(products);
    SumAbove(rems, total);
    ProductsSum(amount, shares);
    SumOfDivision(products, rems, bases, Lost(products), total);
    Missing(amount, total, Sum(bases), Sum(rems), Sum(Lost(products)));
    LostUncovered(total, |shares|, amount - Sum(bases), Sum(Lost(products)), Sum(rems));
    UndistributedIs(amount, shares, total);
  }

  lemma {:induction false} SumOfDivision(products: seq<int>, rems: seq<int>, bases: seq<int>, lost: seq<int>, total: int)
    requires |products| == |rems| == |bases| == |lost|
    requires forall i | 0 <= i < |products| :: products[i] == rems[i] + total * bases[i] + lost[i]
    ensures Sum(products) == Sum(rems) + total * Sum(bases) + Sum(lost)
  {
    var kept := seq(|rems|, i requires 0 <= i < |rems| => rems[i] + total * bases[i]);
    SumLinear(rems, bases, kept, total);
    forall i | 0 <= i < |products|
      ensures products[i] == kept[i] + 1 * lost[i]
    {
    }
    SumLinear(kept, lost, products, 1);
  }

  lemma Missing(amount: int, total: int, given: int, rems: int, lost: int)
    requires amount * total == rems + total * given + lost
    ensures total * (amount - given) == lost + rems
  {
    assert total * (amount - given) == amount * total - total * given;
  }

  lemma WrappedDivision(amount: Int64, shares: seq<Int64>, total: Int64, i: nat)
    requires total > 0 && i < |shares|
    ensures Products(amount, shares)[i] == amount * shares[i]
    ensures var p := amount * shares[i];
            && Wrap(p) == Remainders(amount, shares, total)[i] + total * Bases(amount, shares, total)[i]
            && Remainders(amount, shares, total)[i] > -total
            && Lost(Products(amount, shares))[i] == p - Wrap(p)
  {
    PositiveDivision(Wrap(amount * shares[i]), total);
    hide TruncDiv;
    hide TruncMod;
  }

  lemma UndistributedIs(amount: Int64, shares: seq<Int64>, total: Int64)
    requires total != 0
    ensures Undistributed(amount, shares, total) == amount - Sum(Bases(amount, shares, total))
  {
  }

  /** What is left over does not depend on the order of the shares. */
  lemma BasesIgnoreOrder(amount: Int64, s: seq<Int64>, t: seq<Int64>, total: Int64)
    requires multiset(s) == multiset(t) && total != 0
    ensures Sum(Bases(amount, s, total)) == Sum(Bases(amount, t, total))
  {
    var f := (x: Int64) => Base(amount, x, total);
    MapMultiset(f, s, t);
    hide Base;
    assert Map(f, s) == Bases(amount, s, total) && Map(f, t) == Bases(amount, t, total);
    SumMultiset(Bases(amount, s, total), Bases(amount, t, total));
  }

  /** For shares that sum to their total, few and small enough that a wrapped product cannot be
      made up for, the guard says just that no product leaves int64. */
  lemma {:induction false} CoverableIffProductsFit(amount: Int64, shares: seq<Int64>, total: Int64)
    requires amount >= 0 && total > 0 && Sum(shares) == total
    requires forall i | 0 <= i < |shares| :: shares[i] >= 0
    requires 2 * |shares| * total <= TWO_64
    ensures Coverable(amount, shares, total) <==> forall i | 0 <= i < |shares| :: amount * shares[i] < TWO_63
  {
    if forall i | 0 <= i < |shares| :: amount * shares[i] < TWO_63 {
      InRangeIsCoverable(amount, shares, total);
    } else {
      WrappedUncovered(amount, shares, total);
    }
  }
}
