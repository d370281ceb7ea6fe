/** The split functions of internal/money/split.go, proved against `Apportioned`. */
module Money {
  import opened Numbers
  import opened Sorting
  import opened Apportionment
  import opened ApportionmentExact
  import opened ApportionmentLaws

  datatype SplitError =
    | NoParticipants | AmountNotPositive | ShareNegative | ShareNotPositive
    | WrongTotal | TotalNotPositive | ValueMissing

  datatype SplitResult = Ok(value: seq<Int64>) | Err(error: SplitError)

  // ----- apportion

  lemma RankingFound(amount: Int64, shares: seq<Int64>, total: Int64, offset: nat, order: seq<IdxRem>)
    requires total != 0 && offset < |shares|
    requires Sorted(order, Ahead(|shares|, offset))
    requires multiset(order) == multiset(Entries(Remainders(amount, shares, total)))
    ensures order == Ranking(amount, shares, total, offset)
  {
    RankingIsSorted(amount, shares, total, offset);
    var entries := Entries(Remainders(amount, shares, total));
    OrderCarriesOver(entries, order, Ahead(|shares|, offset));
    SortedUnique(order, Ranking(amount, shares, total, offset), Ahead(|shares|, offset));
  }

  /** Go's `x++`. */
  function Bump(x: int): Int64 { Wrap(x + 1) }

  lemma AwardOne(bases: seq<int>, order: seq<IdxRem>, i: nat)
    requires i < |order| && order[i].idx < |bases|
    requires forall p, q | 0 <= p < q < |order| :: order[p].idx != order[q].idx
    requires forall p | 0 <= p < |bases| :: -TWO_63 <= bases[p] < TWO_63
    ensures var k := order[i].idx;
            var before := Awards(bases, FirstOf(order, i));
            before[k := Bump(before[k])] == Awards(bases, FirstOf(order, i + 1))
  {
    var k := order[i].idx;
    assert order[..i + 1] == order[..i] + [order[i]];
    assert k !in FirstOf(order, i);
    assert FirstOf(order, i + 1) == FirstOf(order, i) + {k} by {
      assert order[i] in order[..i + 1];
    }
  }

  lemma NoAwards(bases: seq<int>)
    requires forall p | 0 <= p < |bases| :: -TWO_63 <= bases[p] < TWO_63
    ensures forall p | 0 <= p < |bases| :: Awards(bases, {})[p] == bases[p]
  {
  }

  /** First loop of `apportion`: truncated quotients, remainders and their running total. */
  method Quotients(amount: Int64, shares: seq<Int64>, total: Int64)
    returns (amounts: array<Int64>, remainders: array<Int64>, distributed: Int64)
    requires total != 0
    ensures fresh(amounts) && fresh(remainders) && amounts != remainders
    ensures amounts.Length == remainders.Length == |shares|
    ensures amounts[..] == Awards(Bases(amount, shares, total), {})
    ensures forall j | 0 <= j < |shares| :: remainders[j] == Remainders(amount, shares, total)[j]
    ensures distributed == Wrap(Sum(Bases(amount, shares, total)))
  {
    hide Wrap;
    hide TruncDiv;
    hide TruncMod;
    hide Awards;
    var n := |shares|;
    amounts, remainders, distributed := new Int64[n], new Int64[n], 0;
    ghost var bases := Bases(amount, shares, total);
    for i := 0 to n
      invariant forall j | 0 <= j < i :: amounts[j] == bases[j] && remainders[j] == Remainders(amount, shares, total)[j]
      invariant distributed == Wrap(Sum(bases[..i]))
      invariant amounts != remainders
    {
      var numer := Wrap(amount * shares[i]);
      var base := Wrap(TruncDiv(numer, total));
      assert base == bases[i];
      amounts[i] := base;
      remainders[i] := TruncMod(numer, total);
      SumNext(bases, i);
      WrapAdd(Sum(bases[..i]), base);
      distributed := Wrap(distributed + base);
    }
    assert bases[..n] == bases;
    NoAwards(bases);
  }

  /** Second part: the indices in order of remainder, ties rotated by `offset`. */
  method Order(ghost amount: Int64, ghost shares: seq<Int64>, ghost total: Int64, offset: nat, remainders: array<Int64>)
    returns (order: array<IdxRem>)
    requires total != 0 && offset < remainders.Length == |shares|
    requires forall j | 0 <= j < |shares| :: remainders[j] == Remainders(amount, shares, total)[j]
    ensures fresh(order) && order[..] == Ranking(amount, shares, total, offset)
  {
    hide *;
    var n := remainders.Length;
    order := new IdxRem[n](_ => IdxRem(0, 0));
    for i := 0 to n
      invariant forall j | 0 <= j < i :: order[j] == IdxRem(j, remainders[j])
    {
      order[i] := IdxRem(i, remainders[i]);
    }
    assert order[..] == Entries(Remainders(amount, shares, total));
    AheadOrders(order[..], n, offset);
    SortSlice(order, Ahead(n, offset));
    RankingFound(amount, shares, total, offset, order[..]);
  }

  method Apportion(amount: Int64, shares: seq<Int64>, total: Int64, offset: nat) returns (out: seq<Int64>)
    requires shares != [] ==> offset < |shares|
    ensures out == Apportioned(amount, shares, total, offset)
  {
    hide Wrap;
    hide Bases;
    hide Remainders;
    hide Ranking;
    hide Awards;
    var n := |shares|;
    if n == 0 || total == 0 {
      return seq(n, _ => 0);
    }
    var amounts, remainders, distributed := Quotients(amount, shares, total);
    var remaining := Wrap(amount - distributed);
    if remaining == 0 {
      assert Bonus(amount, shares, total, offset) == {};
      return amounts[..];
    }
    var order := Order(amount, shares, total, offset, remainders);
    RankingIsPermutation(amount, shares, total, offset);
    ghost var ranking, bases := order[..], Bases(amount, shares, total);
    BasesFit(amount, shares, total);
    assert FirstOf(ranking, 0) == {};
    var i := 0;
    while i < remaining && i < n
      invariant 0 <= i <= Max(0, Min(remaining, n))
      invariant order[..] == ranking
      invariant amounts[..] == Awards(bases, FirstOf(ranking, i))
    {
      AwardOne(bases, ranking, i);
      var k := order[i].idx;
      amounts[k] := Bump(amounts[k]);
      i := i + 1;
    }
    out := amounts[..];
  }

  lemma BasesFit(amount: Int64, shares: seq<Int64>, total: Int64)
    requires total != 0
    ensures forall p | 0 <= p < |shares| :: -TWO_63 <= Bases(amount, shares, total)[p] < TWO_63
  {
  }

  // ----- the split functions

  /** Tie-break rotation: the expense id's hash modulo the number of shares, 0 without an id. */
  function OffsetOf(id: string, n: nat, hash: string -> nat): (r: nat)
    requires n > 0
    ensures r < n
  {
    if id == "" then 0 else hash(id) % n
  }

  function EqualSplit(amount: Int64, n: int, id: string, hash: string -> nat): SplitResult
    requires n < TWO_63
  {
    if n <= 0 then Err(NoParticipants)
    else if amount <= 0 then Err(AmountNotPositive)
    else Ok(Apportioned(amount, seq(n, _ => 1), n, OffsetOf(id, n, hash)))
  }

  method SplitEqualWithID(amount: Int64, n: Int64, id: string, hash: string -> nat) returns (r: SplitResult)
    ensures r == EqualSplit(amount, n, id, hash)
  {
    if n <= 0 { return Err(NoParticipants); }
    if amount <= 0 { return Err(AmountNotPositive); }
    var shares := new Int64[n];
    for i := 0 to n
      invariant forall j | 0 <= j < i :: shares[j] == 1
    {
      shares[i] := 1;
    }
    var offset := 0;
    if id != "" {
      offset := hash(id) % n;
    }
    assert shares[..] == seq(n, _ => 1);
    var out := Apportion(amount, shares[..], n, offset);
    return Ok(out);
  }

  ghost predicate AnyBelow(shares: seq<Int64>, bound: int) {
    exists i | 0 <= i < |shares| :: shares[i] < bound
  }

  ghost function ExactSplit(amount: Int64, shares: seq<Int64>): SplitResult {
    if shares == [] then Err(NoParticipants)
    else if AnyBelow(shares, 0) then Err(ShareNegative)
    else if Wrap(Sum(shares)) != amount then Err(WrongTotal)
    else Ok(shares)
  }

  method SplitExact(amount: Int64, shares: seq<Int64>) returns (r: SplitResult)
    ensures r == ExactSplit(amount, shares)
  {
    if |shares| == 0 { return Err(NoParticipants); }
    var sum: Int64 := 0;
    for i := 0 to |shares|
      invariant !AnyBelow(shares[..i], 0)
      invariant sum == Wrap(Sum(shares[..i]))
    {
      if shares[i] < 0 { return Err(ShareNegative); }
      SumNext(shares, i);
      WrapAdd(Sum(shares[..i]), shares[i]);
      sum := Wrap(sum + shares[i]);
    }
    assert shares[..|shares|] == shares;
    if sum != amount { return Err(WrongTotal); }
    var out := new Int64[|shares|];
    for i := 0 to |shares|
      invariant forall j | 0 <= j < i :: out[j] == shares[j]
    {
      out[i] := shares[i];
    }
    assert out[..] == shares;
    return Ok(out[..]);
  }

  ghost function PercentageSplit(amount: Int64, bps: seq<Int64>, id: string, hash: string -> nat): SplitResult {
    if bps == [] then Err(NoParticipants)
    else if amount <= 0 then Err(AmountNotPositive)
    else if AnyBelow(bps, 0) then Err(ShareNegative)
    else if Wrap(Sum(bps)) != 10000 then Err(WrongTotal)
    else Ok(Apportioned(amount, bps, 10000, OffsetOf(id, |bps|, hash)))
  }

  method SplitByPercentageWithID(amount: Int64, bps: seq<Int64>, id: string,
                                 hash: string -> nat) returns (r: SplitResult)
    ensures r == PercentageSplit(amount, bps, id, hash)
  {
    if |bps| == 0 { return Err(NoParticipants); }
    if amount <= 0 { return Err(AmountNotPositive); }
    var sum: Int64 := 0;
    for i := 0 to |bps|
      invariant !AnyBelow(bps[..i], 0)
      invariant sum == Wrap(Sum(bps[..i]))
    {
      if bps[i] < 0 { return Err(ShareNegative); }
      SumNext(bps, i);
      WrapAdd(Sum(bps[..i]), bps[i]);
      sum := Wrap(sum + bps[i]);
    }
    assert bps[..|bps|] == bps;
    if sum != 10000 { return Err(WrongTotal); }
    var n := |bps|;
    var offset := 0;
    if id != "" {
      offset := hash(id) % n;
    }
    var out := Apportion(amount, bps, 10000, offset);
    return Ok(out);
  }

  ghost function SharesSplit(amount: Int64, shares: seq<Int64>, id: string, hash: string -> nat): SplitResult {
    if shares == [] then Err(NoParticipants)
    else if amount <= 0 then Err(AmountNotPositive)
    else if AnyBelow(shares, 1) then Err(ShareNotPositive)
    else if Wrap(Sum(shares)) == 0 then Err(TotalNotPositive)
    else Ok(Apportioned(amount, shares, Wrap(Sum(shares)), OffsetOf(id, |shares|, hash)))
  }

  method SplitBySharesWithID(amount: Int64, shares: seq<Int64>, id: string,
                             hash: string -> nat) returns (r: SplitResult)
    ensures r == SharesSplit(amount, shares, id, hash)
  {
    if |shares| == 0 { return Err(NoParticipants); }
    if amount <= 0 { return Err(AmountNotPositive); }
    var total: Int64 := 0;
    for i := 0 to |shares|
      invariant !AnyBelow(shares[..i], 1)
      invariant total == Wrap(Sum(shares[..i]))
    {
      if shares[i] <= 0 { return Err(ShareNotPositive); }
      SumNext(shares, i);
      WrapAdd(Sum(shares[..i]), shares[i]);
      total := Wrap(total + shares[i]);
    }
    assert shares[..|shares|] == shares;
    if total == 0 { return Err(TotalNotPositive); }
    var n := |shares|;
    var offset := 0;
    if id != "" {
      offset := hash(id) % n;
    }
    var out := Apportion(amount, shares, total, offset);
    return Ok(out);
  }

  // ----- when they refuse, and what they hand out otherwise

  lemma EqualVerdict(amount: Int64, n: Int64, id: string, hash: string -> nat)
    ensures var r := EqualSplit(amount, n, id, hash);
            && (r == Err(NoParticipants) <==> n <= 0)
            && (r == Err(AmountNotPositive) <==> n > 0 && amount <= 0)
            && (r.Ok? <==> n > 0 && amount > 0)
  {
  }

  lemma {:induction false} ExactVerdict(amount: Int64, shares: seq<Int64>)
    ensures var r := ExactSplit(amount, shares);
            && (r == Err(NoParticipants) <==> shares == [])
            && (r == Err(ShareNegative) <==> exists i | 0 <= i < |shares| :: shares[i] < 0)
            && (r == Ok(shares) <==>
                  shares != [] && (forall i | 0 <= i < |shares| :: 0 <= shares[i]) && (Sum(shares) - amount) % TWO_64 == 0)
            && (r == Ok(shares) || r == Err(NoParticipants) || r == Err(ShareNegative) || r == Err(WrongTotal))
  {
    WrapIff(Sum(shares), amount);
  }

  lemma {:induction false} PercentageVerdict(amount: Int64, bps: seq<Int64>, id: string, hash: string -> nat)
    ensures var r := PercentageSplit(amount, bps, id, hash);
            && (r == Err(NoParticipants) <==> bps == [])
            && (r == Err(AmountNotPositive) <==> bps != [] && amount <= 0)
            && (r == Err(ShareNegative) <==> amount > 0 && exists i | 0 <= i < |bps| :: bps[i] < 0)
            && (r.Ok? <==>
                  bps != [] && amount > 0 && (forall i | 0 <= i < |bps| :: 0 <= bps[i]) && (Sum(bps) - 10000) % TWO_64 == 0)
            && (r.Ok? || r.error in {NoParticipants, AmountNotPositive, ShareNegative, WrongTotal})
  {
    WrapIff(Sum(bps), 10000);
    hide Apportioned;
    hide OffsetOf;
  }

  lemma {:induction false} SharesVerdict(amount: Int64, shares: seq<Int64>, id: string, hash: string -> nat)
    ensures var r := SharesSplit(amount, shares, id, hash);
            && (r == Err(NoParticipants) <==> shares == [])
            && (r == Err(AmountNotPositive) <==> shares != [] && amount <= 0)
            && (r == Err(ShareNotPositive) <==> amount > 0 && exists i | 0 <= i < |shares| :: shares[i] <= 0)
            && (r.Ok? <==>
                  shares != [] && amount > 0 && (forall i | 0 <= i < |shares| :: 1 <= shares[i]) && Sum(shares) % TWO_64 != 0)
            && (r.Ok? || r.error in {NoParticipants, AmountNotPositive, ShareNotPositive, TotalNotPositive})
  {
    WrapIff(Sum(shares), 0);
    hide Apportioned;
    hide OffsetOf;
  }

  /** An accepted proportional split is the apportionment by its shares, their int64 sum or 10000,
      rotated by the hash of the id, or not at all without one. */
  lemma {:induction false} SplitsAreApportioned(amount: Int64, values: seq<Int64>, total: Int64, id: string, hash: string -> nat)
    requires values != [] && (Sum(values) - total) % TWO_64 == 0
    ensures var offset, byPercentage, byShares := if id == "" then 0 else hash(id) % |values|,
                                                  PercentageSplit(amount, values, id, hash), SharesSplit(amount, values, id, hash);
            && (byPercentage.Ok? ==> byPercentage.value == Apportioned(amount, values, 10000, offset))
            && (byShares.Ok? ==> total != 0 && byShares.value == Apportioned(amount, values, total, offset))
  {
    hide Apportioned;
    WrapIff(Sum(values), total);
    assert OffsetOf(id, |values|, hash) == if id == "" then 0 else hash(id) % |values|;
    hide OffsetOf;
    hide Sum;
    hide Wrap;
  }

  // ----- what they promise

  /** The validation compares int64 sums, so an accepted EXACT split adds up to the amount
      exactly when the true sum fits in int64. */
  lemma {:induction false} ExactSplitSums(amount: Int64, shares: seq<Int64>)
    requires ExactSplit(amount, shares).Ok?
    ensures Sum(shares) == amount <==> Sum(shares) < TWO_63
  {
    SumNonNegative(shares);
  }

  /** Three shares that pass the validation of an amount of 1 and sum to 2^64 + 1. */
  lemma ExactSplitWrapsAround()
    ensures ExactSplit(1, [TWO_63 - 1, TWO_63 - 1, 3]).Ok?
    ensures Sum([TWO_63 - 1, TWO_63 - 1, 3]) == TWO_64 + 1
  {
    var s: seq<Int64> := [TWO_63 - 1, TWO_63 - 1, 3];
    assert s[..2] == [TWO_63 - 1, TWO_63 - 1] && s[..2][..1] == [TWO_63 - 1] && s[..2][..1][..0] == [];
    assert Sum(s[..2][..1]) == TWO_63 - 1;
    assert Sum(s[..2]) == TWO_64 - 2;
    WrapCongruent(TWO_64 + 1, 1);
  }

  /** An accepted percentage or shares split adds up if and only if what its quotients leave
      over can be handed out one unit each: the guard of the loop that does so. */
  lemma {:induction false} ProportionalSplitsSum(amount: Int64, values: seq<Int64>, id: string, hash: string -> nat)
    requires |values| < TWO_63
    ensures var r := PercentageSplit(amount, values, id, hash);
            r.Ok? ==> (Sum(r.value) == amount <==> Coverable(amount, values, 10000))
    ensures var r := SharesSplit(amount, values, id, hash);
            r.Ok? ==> Wrap(Sum(values)) != 0 && (Sum(r.value) == amount <==> Coverable(amount, values, Wrap(Sum(values))))
  {
    hide Coverable;
    hide Apportioned;
    if PercentageSplit(amount, values, id, hash).Ok? {
      ConservationIff(amount, values, 10000, OffsetOf(id, |values|, hash));
    }
    if SharesSplit(amount, values, id, hash).Ok? {
      ConservationIff(amount, values, Wrap(Sum(values)), OffsetOf(id, |values|, hash));
    }
  }

  /** Percentages that truly sum to 100% among fewer than 9 * 10^14 participants: the parts add
      up if and only if no product of amount and basis points leaves int64. */
  lemma {:induction false} PercentageSplitSums(amount: Int64, bps: seq<Int64>, id: string, hash: string -> nat)
    requires Sum(bps) == 10000 && |bps| * 20000 <= TWO_64
    ensures var r := PercentageSplit(amount, bps, id, hash);
            r.Ok? ==> (Sum(r.value) == amount <==> forall i | 0 <= i < |bps| :: amount * bps[i] < TWO_63)
  {
    ProportionalSplitsSum(amount, bps, id, hash);
    if PercentageSplit(amount, bps, id, hash).Ok? {
      hide Coverable;
      CoverableIffProductsFit(amount, bps, 10000);
    }
  }

  /** Shares whose sum times their number stays within 2^63: likewise. */
  lemma {:induction false} SharesSplitSums(amount: Int64, shares: seq<Int64>, id: string, hash: string -> nat)
    requires Sum(shares) < TWO_63 && 2 * |shares| * Sum(shares) <= TWO_64 && |shares| < TWO_63
    ensures var r := SharesSplit(amount, shares, id, hash);
            r.Ok? ==> (Sum(r.value) == amount <==> forall i | 0 <= i < |shares| :: amount * shares[i] < TWO_63)
  {
    ProportionalSplitsSum(amount, shares, id, hash);
    if SharesSplit(amount, shares, id, hash).Ok? {
      SumNonNegative(shares);
      hide Coverable;
      CoverableIffProductsFit(amount, shares, Sum(shares));
    }
  }

  lemma {:induction false} SingleSum(s: seq<int>)
    requires |s| == 1
    ensures Sum(s) == s[0]
  {
    assert s[..0] == [];
  }

  lemma {:induction false} PairSum(s: seq<int>)
    requires |s| == 2
    ensures Sum(s) == s[0] + s[1]
  {
    assert s == ([] + [s[0]]) + [s[1]];
    SumSnoc([] + [s[0]], s[1]);
    SumSnoc([], s[0]);
  }

  lemma {:induction false} AcceptedShares(amount: Int64, shares: seq<Int64>, id: string, hash: string -> nat)
    requires shares != [] && amount > 0 && 0 < Sum(shares) < TWO_63
    requires forall i | 0 <= i < |shares| :: shares[i] >= 1
    ensures SharesSplit(amount, shares, id, hash) == Ok(Apportioned(amount, shares, Sum(shares), OffsetOf(id, |shares|, hash)))
  {
    hide Apportioned;
    hide Sum;
  }

  lemma {:induction false} AcceptedPercentage(amount: Int64, bps: seq<Int64>, id: string, hash: string -> nat)
    requires bps != [] && amount > 0 && Sum(bps) == 10000
    requires forall i | 0 <= i < |bps| :: bps[i] >= 0
    ensures PercentageSplit(amount, bps, id, hash) == Ok(Apportioned(amount, bps, 10000, OffsetOf(id, |bps|, hash)))
  {
    hide Apportioned;
    hide Sum;
  }

  const HUGE_SHARES: seq<Int64> := [0x1000_0000_0000_0000, 0x1000_0000_0000_0000]
  const THREES: seq<Int64> := [3, 3]

  /** An amount of 100 over two shares of 2^60 comes out as 3 and 3. */
  lemma SharesSplitWrapsAround(id: string, hash: string -> nat)
    ensures SharesSplit(100, HUGE_SHARES, id, hash) == Ok(THREES)
    ensures Sum(HUGE_SHARES) == 0x2000_0000_0000_0000
  {
    hide Sum;
    hide Wrap;
    hide Base;
    hide Leftover;
    hide Apportioned;
    hide SharesSplit;
    hide PercentageSplit;
    hide OffsetOf;
    PairSum(HUGE_SHARES);
    HugeBases();
    var total: Int64 := 0x2000_0000_0000_0000;
    AcceptedShares(100, HUGE_SHARES, id, hash);
    AllGetOne(100, HUGE_SHARES, total, OffsetOf(id, 2, hash));
    assert Apportioned(100, HUGE_SHARES, total, OffsetOf(id, 2, hash)) == THREES;
  }

  lemma HugeBases()
    ensures var s, total := HUGE_SHARES, 0x2000_0000_0000_0000;
            && Base(100, s[0], total) == 2 && Base(100, s[1], total) == 2 && Leftover(100, s, total) == 96
  {
    assert Wrap(100 * 0x1000_0000_0000_0000) == 0x4000_0000_0000_0000;
    PairSum(Bases(100, HUGE_SHARES, 0x2000_0000_0000_0000));
  }

  const WHOLE: seq<Int64> := [10000]

  /** One participant with 100% of 1844674407370956 gets 1. */
  lemma PercentageSplitWrapsAround(id: string, hash: string -> nat)
    ensures PercentageSplit(1844674407370956, WHOLE, id, hash) == Ok([1])
  {
    hide Sum;
    hide Wrap;
    hide Base;
    hide Leftover;
    hide Apportioned;
    hide PercentageSplit;
    hide OffsetOf;
    SingleSum(WHOLE);
    AcceptedPercentage(1844674407370956, WHOLE, id, hash);
    WrappedBase();
    AllGetOne(1844674407370956, WHOLE, 10000, OffsetOf(id, 1, hash));
    var out := Apportioned(1844674407370956, WHOLE, 10000, OffsetOf(id, 1, hash));
    assert out[0] == 1;
    assert out == [1];
  }

  lemma WrappedBase()
    ensures Base(1844674407370956, 10000, 10000) == 0
    ensures Leftover(1844674407370956, WHOLE, 10000) == 1844674407370956
  {
    assert Wrap(1844674407370956 * 10000) == 8384;
    SingleSum(Bases(1844674407370956, WHOLE, 10000));
  }

  lemma {:induction false} OnesSum(n: nat)
    ensures Sum(seq(n, _ => 1)) == n
  {
    if n > 0 {
      OnesSum(n - 1);
      assert seq(n, _ => 1)[..n - 1] == seq(n - 1, _ => 1);
    }
  }

  lemma EqualSplitInRange(amount: Int64, n: Int64)
    requires amount > 0 && n > 0
    ensures InRange(amount, seq(n, _ => 1), n)
  {
    OnesSum(n);
  }

  /** An equal split always adds up. */
  lemma EqualSplitSums(amount: Int64, n: Int64, id: string, hash: string -> nat)
    ensures var r := EqualSplit(amount, n, id, hash);
            r.Ok? ==> |r.value| == n && Sum(r.value) == amount
  {
    if EqualSplit(amount, n, id, hash).Ok? {
      EqualSplitInRange(amount, n);
      Conservation(amount, seq(n, _ => 1), n, OffsetOf(id, n, hash));
    }
  }

  /** With equal remainders the ranking is the rotation that starts at `offset`. */
  lemma EqualRemaindersRotate(ranking: seq<IdxRem>, rems: seq<int>, offset: nat, p: nat)
    requires Ranks(ranking, rems, offset) && p < |ranking|
    requires forall i, j | 0 <= i < |rems| && 0 <= j < |rems| :: rems[i] == rems[j]
    ensures (ranking[p].idx - offset) % |rems| == p
  {
    var n := |rems|;
    var rots := seq(n, q requires 0 <= q < n => (ranking[q].idx - offset) % n);
    var less := Ahead(n, offset);
    forall q, q' | 0 <= q < q' < n
      ensures rots[q] < rots[q']
    {
      RotateClosedForm(ranking[q].idx, n, offset);
      RotateClosedForm(ranking[q'].idx, n, offset);
      assert !less(ranking[q'], ranking[q]);
    }
    forall q | 0 <= q < n
      ensures 0 <= rots[q] < n
    {
      RotateClosedForm(ranking[q].idx, n, offset);
    }
    IncreasingIsIdentity(rots);
    assert rots[p] == p;
  }

  lemma EqualBonus(amount: Int64, n: Int64, offset: nat, p: nat)
    requires amount > 0 && p < n && offset < n
    ensures p in Bonus(amount, seq(n, _ => 1), n, offset) <==> (p - offset) % n < amount % n
  {
    hide *;
    var shares: seq<Int64> := seq(n, _ => 1);
    EqualSplitInRange(amount, n);
    var ranking, rems := Ranking(amount, shares, n, offset), Remainders(amount, shares, n);
    var k := Leftover(amount, shares, n);
    EqualLeftover(amount, n);
    BonusIsTop(amount, shares, n, offset);
    FirstOfSize(ranking, rems, offset, k);
    var q := RankOf(ranking, rems, offset, p);
    EqualRemaindersRotate(ranking, rems, offset, q);
  }

  lemma RankOf(ranking: seq<IdxRem>, rems: seq<int>, offset: nat, i: nat) returns (q: nat)
    requires Ranks(ranking, rems, offset) && i < |rems|
    ensures q < |ranking| && ranking[q].idx == i
  {
    assert IdxRem(i, rems[i]) in ranking;
    q :| 0 <= q < |ranking| && ranking[q] == IdxRem(i, rems[i]);
  }

  /** EQUAL mode in closed form: sorted position `p` gets the quotient, and one unit more
      exactly when it is among the first `amount % n` positions counted from the offset. */
  lemma EqualSplitClosedForm(amount: Int64, n: Int64, id: string, hash: string -> nat, p: nat)
    requires amount > 0 && p < n
    ensures var r := EqualSplit(amount, n, id, hash);
            && r.Ok? && |r.value| == n
            && r.value[p] == amount / n + if (p - if id == "" then 0 else hash(id) % n) % n < amount % n then 1 else 0
  {
    hide Apportioned;
    var shares: seq<Int64> := seq(n, _ => 1);
    EqualSplitInRange(amount, n);
    EqualBonus(amount, n, OffsetOf(id, n, hash), p);
    Quota(amount, shares, n, OffsetOf(id, n, hash), p);
    assert amount * shares[p] == amount;
  }

  lemma {:induction false} ConstantSum(s: seq<int>, c: int)
    requires forall i | 0 <= i < |s| :: s[i] == c
    ensures Sum(s) == |s| * c
  {
    if s != [] {
      ConstantSum(s[..|s| - 1], c);
      assert (|s| - 1) * c + c == |s| * c;
    }
  }

  lemma EqualLeftover(amount: Int64, n: Int64)
    requires amount > 0 && n > 0
    ensures var shares := seq(n, _ => 1);
            && Leftover(amount, shares, n) == amount % n
            && forall i | 0 <= i < n :: Remainders(amount, shares, n)[i] == amount % n
  {
    hide *;
    var shares: seq<Int64> := seq(n, _ => 1);
    EqualSplitInRange(amount, n);
    LeftoverExact(amount, shares, n);
    forall i | 0 <= i < n
      ensures Remainders(amount, shares, n)[i] == amount % n
    {
      RemainderExact(amount, shares, n, i);
      assert amount * shares[i] == amount;
    }
    ConstantSum(Remainders(amount, shares, n), amount % n);
    var k, r := Leftover(amount, shares, n), amount % n;
    if k < r { MulGap(n, k, r); }
    if k > r { MulGap(n, r, k); }
  }
}
