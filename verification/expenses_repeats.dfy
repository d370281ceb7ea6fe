/** Requests that name one user twice with different values (internal/expenses/handlers.go): the
    order a sort by user id leaves the two entries in decides who pays the odd unit, and when. */
module ExpensesRepeats {
  import opened Entities
  import opened Numbers
  import opened Options
  import opened Sorting
  import opened Grouping
  import opened Apportionment
  import ApportionmentLaws
  import opened ApportionmentExact
  import opened ApportionmentTies
  import opened ApportionmentOwners
  import Order = ApportionmentOrder
  import opened Money
  import opened Expenses

  // ----- a request and its claims

  function ClaimOf(p: Part): Claim { Claim(p.user, Plain(p)) }

  function Claims(parts: seq<Part>): (r: seq<Claim>)
    ensures |r| == |parts|
  {
    Map(ClaimOf, parts)
  }

  lemma ClaimsAre(parts: seq<Part>)
    ensures Shares(Claims(parts)) == Values(parts) && Owners(Claims(parts)) == Map(UserOf, parts)
  {
  }

  /** The divisor of the two proportional modes. */
  function Divisor(req: Request): Int64 {
    if req.mode == PERCENTAGE then 10000 else Wrap(Sum(Values(req.parts)))
  }

  /** The claims in the order the sort leaves them. */
  function SortedClaims(parts: seq<Part>, idx: seq<nat>): (r: seq<Claim>)
    requires |idx| == |parts| && forall p | 0 <= p < |idx| :: idx[p] < |parts|
    ensures |r| == |parts|
  {
    Claims(Pick(parts, idx))
  }

  lemma SortedClaimsAre(parts: seq<Part>, idx: seq<nat>)
    requires SortedIndex(idx, parts)
    ensures |idx| == |parts| && forall p | 0 <= p < |idx| :: idx[p] < |parts|
    ensures Sorted(SortedClaims(parts, idx), Order.ByOwner()) && multiset(SortedClaims(parts, idx)) == multiset(Claims(parts))
    ensures Shares(SortedClaims(parts, idx)) == Pick(Values(parts), idx)
  {
    PickedIsSorted(parts, idx);
    var s := Pick(parts, idx);
    MapMultiset(ClaimOf, s, parts);
    forall i, j | 0 <= i < j < |s|
      ensures !Order.ByOwner()(Claims(s)[j], Claims(s)[i])
    {
      assert !UserOrder()(s[j], s[i]);
    }
  }

  lemma SameDivisor(a: Request, b: Request, idx: seq<nat>)
    requires a.mode == b.mode && multiset(a.parts) == multiset(b.parts)
    ensures Divisor(a) == Divisor(b)
  {
    MapMultiset(Plain, a.parts, b.parts);
    assert Map(Plain, a.parts) == Values(a.parts) && Map(Plain, b.parts) == Values(b.parts);
    SumMultiset(Values(a.parts), Values(b.parts));
    hide Sum;
  }

  predicate Proportional(mode: Mode) { mode == PERCENTAGE || mode == SHARES }

  lemma SortedValues(req: Request, idx: seq<nat>)
    requires SortedIndex(idx, req.parts) && req.parts != []
    ensures |idx| == |req.parts| && forall p | 0 <= p < |idx| :: idx[p] < |req.parts|
    ensures Sum(Pick(Values(req.parts), idx)) == Sum(Values(req.parts))
  {
    IndexFacts(idx, |req.parts|);
    PickMultiset(Values(req.parts), idx);
    SumMultiset(Values(req.parts), Pick(Values(req.parts), idx));
    hide Sum;
  }

  /** An accepted proportional split, from its values. */
  lemma {:induction false} AcceptedAmounts(req: Request, values: seq<Int64>, divisor: Int64, id: string, hash: string -> nat)
    requires Proportional(req.mode) && |values| < TWO_63 && ModeSplit(req, values, id, hash).Ok?
    requires divisor == if req.mode == PERCENTAGE then 10000 else Wrap(Sum(values))
    ensures values != [] && divisor != 0
    ensures ModeSplit(req, values, id, hash).value == Apportioned(req.amount, values, divisor, OffsetOf(id, |values|, hash))
  {
    hide Apportioned;
    hide Sum;
    hide AnyBelow;
  }

  /** The amounts of an accepted proportional request, in user order. */
  lemma SortedAmounts(req: Request, r: SplitResult, id: string, hash: string -> nat, idx: seq<nat>)
    requires |req.parts| < TWO_63 && SortedIndex(idx, req.parts) && Outcome(r, req, id, hash, idx)
    requires Proportional(req.mode) && r.Ok?
    ensures |idx| == |req.parts| == |r.value| > 0 && !AnyMissing(req.parts)
    ensures forall p | 0 <= p < |idx| :: idx[p] < |req.parts|
    ensures Divisor(req) != 0
    ensures Pick(r.value, idx) == Apportioned(req.amount, Pick(Values(req.parts), idx), Divisor(req), OffsetOf(id, |req.parts|, hash))
    ensures req.mode == SHARES ==> Wrap(Sum(Pick(Values(req.parts), idx))) == Divisor(req)
  {
    IndexFacts(idx, |req.parts|);
    if req.parts != [] { SortedValues(req, idx); }
    hide ModeSplit;
    hide Sum;
    hide Apportioned;
    hide SortedIndex;
    hide Values;
    hide AnyMissing;
    assert ModeSplit(req, Pick(Values(req.parts), idx), id, hash).Ok?;
    if req.parts == [] { NoValues(req, Pick(Values(req.parts), idx), id, hash); }
    AcceptedAmounts(req, Pick(Values(req.parts), idx), Divisor(req), id, hash);
  }

  lemma NoValues(req: Request, values: seq<Int64>, id: string, hash: string -> nat)
    requires values == [] && Proportional(req.mode)
    ensures ModeSplit(req, values, id, hash).Err?
  {
  }

  /** Each user's total is what the user's claims get. */
  lemma {:induction false} TotalIsClaims(req: Request, r: SplitResult, id: string, hash: string -> nat, idx: seq<nat>, u: int)
    requires |req.parts| < TWO_63 && SortedIndex(idx, req.parts) && Outcome(r, req, id, hash, idx)
    requires Proportional(req.mode) && r.Ok?
    ensures |idx| == |req.parts| == |r.value| > 0
    ensures forall p | 0 <= p < |idx| :: idx[p] < |req.parts|
    ensures Total(RowItems(Map(UserOf, req.parts), r.value), u)
         == TotalOf(req.amount, Divisor(req), SortedClaims(req.parts, idx), OffsetOf(id, |req.parts|, hash), u)
  {
    SortedAmounts(req, r, id, hash, idx);
    SortedRowsTotal(req.parts, r.value, idx, u);
    SortedClaimsAre(req.parts, idx);
    ClaimsAre(Pick(req.parts, idx));
    hide Total;
    hide Outcome;
    hide Apportioned;
    hide Divisor;
    hide SortedIndex;
    hide Values;
  }

  lemma DivisorFits(req: Request, r: SplitResult, id: string, hash: string -> nat, idx: seq<nat>)
    requires |req.parts| < TWO_63 && SortedIndex(idx, req.parts) && Outcome(r, req, id, hash, idx)
    requires Proportional(req.mode) && r.Ok?
    ensures |idx| == |req.parts| > 0 && forall p | 0 <= p < |idx| :: idx[p] < |req.parts|
    ensures var d := Divisor(req);
            d != 0 && (d >= 2 || d <= -2 || Handed(req.amount, Shares(SortedClaims(req.parts, idx)), d) == 0)
  {
    SortedAmounts(req, r, id, hash, idx);
    SortedClaimsAre(req.parts, idx);
    var d := Divisor(req);
    if d == 1 || d == -1 {
      assert req.mode == SHARES;
      hide SortedIndex;
      hide Outcome;
      hide Handed;
      UnitHandsNothing(req.amount, Pick(Values(req.parts), idx), d);
    }
  }

  // ----- exactly when the order matters

  /** Another request with the same entries, and one of its possible outcomes. */
  ghost predicate Rearranged(a: Request, b: Request, rb: SplitResult, ib: seq<nat>, id: string, hash: string -> nat) {
    && b.amount == a.amount && b.mode == a.mode && multiset(b.parts) == multiset(a.parts) && |b.parts| < TWO_63
    && SortedIndex(ib, b.parts) && Outcome(rb, b, id, hash, ib)
  }

  ghost predicate SameTotals(a: Request, ra: SplitResult, b: Request, rb: SplitResult) {
    && ra.Ok? && rb.Ok? && |ra.value| == |a.parts| && |rb.value| == |b.parts|
    && forall u :: Total(RowItems(Map(UserOf, b.parts), rb.value), u) == Total(RowItems(Map(UserOf, a.parts), ra.value), u)
  }

  /** However the request is permuted and sorted, everyone's total is the same. */
  ghost predicate AlwaysSameTotals(a: Request, ra: SplitResult, id: string, hash: string -> nat) {
    forall b, rb, ib | Rearranged(a, b, rb, ib, id, hash) :: SameTotals(a, ra, b, rb)
  }

  /** The condition: none in EQUAL and EXACT mode, otherwise `ApportionmentOwners.OrderFree` on the
      claims in user order. Of k units handed out, let c be left for the claims whose remainder is
      the k-th largest. Let w be the user at the start of the rotation, and a_min and a_max the
      least and the most of w's claims with that remainder that can lie at or after the start.
      Then a_min == a_max, or the R claims of other users with that remainder are none, or
      c <= a_min, or c >= a_max + R. */
  ghost predicate OrderFreeRequest(a: Request, ia: seq<nat>, id: string, hash: string -> nat)
    requires |ia| == |a.parts| > 0 && forall p | 0 <= p < |ia| :: ia[p] < |a.parts|
  {
    Proportional(a.mode) ==> Divisor(a) != 0 && OrderFree(a.amount, Divisor(a), SortedClaims(a.parts, ia), OffsetOf(id, |a.parts|, hash))
  }

  lemma {:induction false} FreeTotals(a: Request, ra: SplitResult, ia: seq<nat>, b: Request, rb: SplitResult, ib: seq<nat>, id: string,
                                      hash: string -> nat, u: int)
    requires |a.parts| < TWO_63 && SortedIndex(ia, a.parts) && Outcome(ra, a, id, hash, ia) && ra.Ok? && Proportional(a.mode)
    requires Rearranged(a, b, rb, ib, id, hash) && rb.Ok?
    requires |ia| == |a.parts| > 0 && forall p | 0 <= p < |ia| :: ia[p] < |a.parts|
    requires AlwaysSame(a.amount, Divisor(a), SortedClaims(a.parts, ia), OffsetOf(id, |a.parts|, hash))
    ensures |ra.value| == |a.parts| && |rb.value| == |b.parts|
    ensures Total(RowItems(Map(UserOf, b.parts), rb.value), u) == Total(RowItems(Map(UserOf, a.parts), ra.value), u)
  {
    TotalIsClaims(a, ra, id, hash, ia, u);
    TotalIsClaims(b, rb, id, hash, ib, u);
    SortedClaimsAre(a.parts, ia);
    SortedClaimsAre(b.parts, ib);
    MapMultiset(ClaimOf, a.parts, b.parts);
    MembersAgree(a.parts, b.parts);
    SameDivisor(a, b, ia);
    hide Total;
    hide Outcome;
    hide SortedIndex;
    hide Divisor;
    hide TotalOf;
    hide SortedClaims;
    assert Order.Rearranges(SortedClaims(a.parts, ia), SortedClaims(b.parts, ib));
  }

  /** An arrangement of the claims as a request in user order, which the sort leaves alone. */
  function PartOf(c: Claim): Part { Part(if c.owner >= 0 then c.owner else 0, Some(c.share)) }

  lemma RequestOf(a: Request, ia: seq<nat>, t: seq<Claim>)
    requires SortedIndex(ia, a.parts) && !AnyMissing(a.parts)
    requires |ia| == |a.parts| && forall p | 0 <= p < |ia| :: ia[p] < |a.parts|
    requires Order.Rearranges(SortedClaims(a.parts, ia), t)
    ensures var parts := Map(PartOf, t);
            && multiset(parts) == multiset(a.parts) && |parts| == |a.parts|
            && SortedIndex(Identity(|parts|), parts) && Claims(parts) == t && Pick(parts, Identity(|parts|)) == parts
  {
    var s, parts := SortedClaims(a.parts, ia), Map(PartOf, t);
    PickedIsSorted(a.parts, ia);
    MembersAgree(s, t);
    MembersAgree(Pick(a.parts, ia), a.parts);
    forall i | 0 <= i < |s|
      ensures PartOf(s[i]) == Pick(a.parts, ia)[i] && s[i].owner >= 0
    {
      assert a.parts[ia[i]].value.Some?;
    }
    assert Map(PartOf, s) == Pick(a.parts, ia);
    MapMultiset(PartOf, t, s);
    forall i | 0 <= i < |t|
      ensures t[i].owner >= 0 && ClaimOf(parts[i]) == t[i]
    {
      assert t[i] in s;
    }
    forall i, j | 0 <= i < j < |parts|
      ensures !ByUser(parts)(j, i)
    {
      assert !Order.ByOwner()(t[j], t[i]);
    }
  }

  /** Its outcome. */
  lemma OutcomeOf(a: Request, ra: SplitResult, ia: seq<nat>, t: seq<Claim>, id: string, hash: string -> nat)
    returns (b: Request, rb: SplitResult)
    requires |a.parts| < TWO_63 && SortedIndex(ia, a.parts) && Outcome(ra, a, id, hash, ia) && ra.Ok? && Proportional(a.mode)
    requires |ia| == |a.parts| && forall p | 0 <= p < |ia| :: ia[p] < |a.parts|
    requires Order.Rearranges(SortedClaims(a.parts, ia), t)
    ensures b == Request(a.amount, a.mode, Map(PartOf, t)) && |b.parts| == |a.parts| > 0
    ensures Rearranged(a, b, rb, Identity(|b.parts|), id, hash) && rb.Ok? && |rb.value| == |b.parts|
    ensures forall u :: Total(RowItems(Map(UserOf, b.parts), rb.value), u)
                     == TotalOf(a.amount, Divisor(a), t, OffsetOf(id, |a.parts|, hash), u)
  {
    SortedAmounts(a, ra, id, hash, ia);
    RequestOf(a, ia, t);
    b := Request(a.amount, a.mode, Map(PartOf, t));
    var ib := Identity(|b.parts|);
    MissingIgnoresOrder(a.parts, b.parts);
    rb := OutcomeInOrder(a, ra, ia, b, id, hash);
    SameDivisor(a, b, ia);
    hide Outcome;
    hide SortedIndex;
    hide Divisor;
    hide TotalOf;
    hide Total;
    hide SortedClaims;
    forall u
      ensures Total(RowItems(Map(UserOf, b.parts), rb.value), u) == TotalOf(a.amount, Divisor(a), t, OffsetOf(id, |a.parts|, hash), u)
    {
      TotalIsClaims(b, rb, id, hash, ib, u);
      assert SortedClaims(b.parts, ib) == t by { ClaimsInOrder(b.parts, t); }
    }
  }

  lemma ClaimsInOrder(parts: seq<Part>, t: seq<Claim>)
    requires Claims(parts) == t && Pick(parts, Identity(|parts|)) == parts
    ensures SortedClaims(parts, Identity(|parts|)) == t
  {
  }

  /** A permuted request in user order is accepted, too. */
  lemma OutcomeInOrder(a: Request, ra: SplitResult, ia: seq<nat>, b: Request, id: string, hash: string -> nat) returns (rb: SplitResult)
    requires |a.parts| < TWO_63 && SortedIndex(ia, a.parts) && Outcome(ra, a, id, hash, ia) && ra.Ok?
    requires a.mode != EQUAL && !AnyMissing(b.parts) && !AnyMissing(a.parts)
    requires b.amount == a.amount && b.mode == a.mode && multiset(b.parts) == multiset(a.parts) && |b.parts| == |a.parts|
    requires SortedIndex(Identity(|b.parts|), b.parts)
    ensures Outcome(rb, b, id, hash, Identity(|b.parts|)) && rb.Ok? && |rb.value| == |b.parts|
  {
    var ib := Identity(|b.parts|);
    ValuesMultiset(a.parts, ia, b.parts, ib);
    var s, t := Pick(Values(a.parts), ia), Pick(Values(b.parts), ib);
    IndexFacts(ia, |a.parts|);
    IndexFacts(ib, |b.parts|);
    hide SortedIndex;
    hide Values;
    hide AnyMissing;
    hide EqualSplit;
    hide ExactSplit;
    hide PercentageSplit;
    hide SharesSplit;
    ModeVerdict(a, s, t, id, hash);
    ModeSplitLength(a, t, id, hash);
    assert ModeSplit(a, t, id, hash) == ModeSplit(b, t, id, hash);
    hide ModeSplit;
    rb := ModeSplit(a, t, id, hash);
    assert Pick(rb.value, ib) == rb.value;
  }

  /** Where the condition fails, two permutations of the request, both in user order, charge the
      user at the start of the rotation differently. */
  lemma BoundDiffers(a: Request, ra: SplitResult, ia: seq<nat>, id: string, hash: string -> nat)
    returns (b: Request, rb: SplitResult, c: Request, rc: SplitResult, u: int)
    requires |a.parts| < TWO_63 && SortedIndex(ia, a.parts) && Outcome(ra, a, id, hash, ia) && ra.Ok? && Proportional(a.mode)
    requires |ia| == |a.parts| > 0 && forall p | 0 <= p < |ia| :: ia[p] < |a.parts|
    requires !OrderFreeRequest(a, ia, id, hash)
    ensures Rearranged(a, b, rb, Identity(|b.parts|), id, hash) && rb.Ok? && |rb.value| == |b.parts|
    ensures Rearranged(a, c, rc, Identity(|c.parts|), id, hash) && rc.Ok? && |rc.value| == |c.parts|
    ensures Total(RowItems(Map(UserOf, b.parts), rb.value), u) < Total(RowItems(Map(UserOf, c.parts), rc.value), u)
  {
    DivisorFits(a, ra, id, hash, ia);
    SortedClaimsAre(a.parts, ia);
    var s, d, offset := SortedClaims(a.parts, ia), Divisor(a), OffsetOf(id, |a.parts|, hash);
    assert !OrderFree(a.amount, d, s, offset);
    hide *;
    AlwaysSameIff(a.amount, d, s, offset);
    u := s[offset].owner;
    var tied := OnClaim(Eq(LastRemainder(a.amount, d, s, offset)), a.amount, d);
    b, rb := OutcomeOf(a, ra, ia, Order.Arranged(tied, s, u, true), id, hash);
    c, rc := OutcomeOf(a, ra, ia, Order.Arranged(tied, s, u, false), id, hash);
  }

  /** Permuting an accepted request, or sorting its ties another way, never changes anyone's total
      if and only if the condition holds. */
  lemma TotalsOrderIndependentIff(a: Request, ra: SplitResult, ia: seq<nat>, id: string, hash: string -> nat)
    requires |a.parts| < TWO_63 && a.parts != [] && SortedIndex(ia, a.parts) && Outcome(ra, a, id, hash, ia) && ra.Ok?
    requires |ia| == |a.parts| && forall p | 0 <= p < |ia| :: ia[p] < |a.parts|
    ensures AlwaysSameTotals(a, ra, id, hash) <==> OrderFreeRequest(a, ia, id, hash)
  {
    if !OrderFreeRequest(a, ia, id, hash) {
      var b, rb, c, rc, u := BoundDiffers(a, ra, ia, id, hash);
      hide *;
      DifferentTotals(a, ra, b, rb, c, rc, id, hash, u);
    } else {
      forall b, rb, ib | Rearranged(a, b, rb, ib, id, hash)
        ensures SameTotals(a, ra, b, rb)
      {
        FreeSameTotals(a, ra, ia, b, rb, ib, id, hash);
      }
    }
  }

  lemma {:induction false} DifferentTotals(a: Request, ra: SplitResult, b: Request, rb: SplitResult, c: Request, rc: SplitResult, id: string,
                                           hash: string -> nat, u: int)
    requires Rearranged(a, b, rb, Identity(|b.parts|), id, hash) && rb.Ok? && |rb.value| == |b.parts|
    requires Rearranged(a, c, rc, Identity(|c.parts|), id, hash) && rc.Ok? && |rc.value| == |c.parts|
    requires Total(RowItems(Map(UserOf, b.parts), rb.value), u) < Total(RowItems(Map(UserOf, c.parts), rc.value), u)
    ensures !AlwaysSameTotals(a, ra, id, hash)
  {
    hide Rearranged;
    hide Total;
    hide RowItems;
    hide Identity;
  }

  lemma FreeSameTotals(a: Request, ra: SplitResult, ia: seq<nat>, b: Request, rb: SplitResult, ib: seq<nat>, id: string,
                       hash: string -> nat)
    requires |a.parts| < TWO_63 && a.parts != [] && SortedIndex(ia, a.parts) && Outcome(ra, a, id, hash, ia) && ra.Ok?
    requires |ia| == |a.parts| && forall p | 0 <= p < |ia| :: ia[p] < |a.parts|
    requires OrderFreeRequest(a, ia, id, hash) && Rearranged(a, b, rb, ib, id, hash)
    ensures SameTotals(a, ra, b, rb)
  {
    VerdictOrderIndependent(a, b, id, hash, ra, ia, rb, ib);
    if Proportional(a.mode) {
      DivisorFits(a, ra, id, hash, ia);
      SortedClaimsAre(a.parts, ia);
      hide Outcome;
      hide SortedIndex;
      hide Divisor;
      hide SortedClaims;
      hide Total;
      AlwaysSameIff(a.amount, Divisor(a), SortedClaims(a.parts, ia), OffsetOf(id, |a.parts|, hash));
      hide OrderFree;
      hide AlwaysSame;
      forall u
        ensures Total(RowItems(Map(UserOf, b.parts), rb.value), u) == Total(RowItems(Map(UserOf, a.parts), ra.value), u)
      {
        FreeTotals(a, ra, ia, b, rb, ib, id, hash, u);
      }
    } else {
      hide Outcome;
      hide SortedIndex;
      forall u
        ensures Total(RowItems(Map(UserOf, b.parts), rb.value), u) == Total(RowItems(Map(UserOf, a.parts), ra.value), u)
      {
        TotalsOrderIndependent(a, b, id, hash, ra, ia, rb, ib, u);
      }
    }
  }

  // ----- a request of three entries

  const LARGER_PARTS: seq<Part> := [Part(1, Some(2)), Part(1, Some(1)), Part(2, Some(1))]
  const SMALLER_PARTS: seq<Part> := [Part(1, Some(1)), Part(1, Some(2)), Part(2, Some(1))]
  const LARGER_FIRST: seq<Int64> := [2, 1, 1]
  const SMALLER_FIRST: seq<Int64> := [1, 2, 1]

  lemma Permuted()
    ensures multiset(SMALLER_PARTS) == multiset(LARGER_PARTS)
  {
    assert SMALLER_PARTS == LARGER_PARTS[0 := LARGER_PARTS[1]][1 := LARGER_PARTS[0]];
    SwapKeepsMultiset(LARGER_PARTS, 0, 1);
  }

  /** Three entries in user order. */
  lemma InOrder(parts: seq<Part>, values: seq<Int64>)
    requires |parts| == 3 && parts[0].user <= parts[1].user <= parts[2].user
    requires |values| == 3 && forall i | 0 <= i < 3 :: parts[i].value == Some(values[i])
    ensures SortedIndex(Identity(3), parts) && !AnyMissing(parts) && Pick(Values(parts), Identity(3)) == values
  {
  }

  lemma SmallShares()
    ensures Base(2, 1, 4) == 0 && Remainder(2, 1, 4) == 2 && Base(2, 2, 4) == 1 && Remainder(2, 2, 4) == 0
  {
  }

  lemma {:induction false} TripleSum(s: seq<int>)
    requires |s| == 3
    ensures Sum(s) == s[0] + s[1] + s[2]
  {
    PairSum(s[..2]);
  }

  lemma Rotation()
    ensures Rotate(0, 3, 1) == 2 && Rotate(1, 3, 1) == 0 && Rotate(2, 3, 1) == 1
  {
    RotateClosedForm(0, 3, 1);
    RotateClosedForm(1, 3, 1);
    RotateClosedForm(2, 3, 1);
  }

  /** The ranking of one share of 2 and two shares of 1 out of 4, for an amount of 2. */
  lemma RankingOf(shares: seq<Int64>, first: nat, second: nat, large: nat)
    requires |shares| == 3 && first < 3 && second == (first + 1) % 3 && large == (first + 2) % 3
    requires shares[first] == 1 && shares[second] == 1 && shares[large] == 2
    requires Rotate(first, 3, 1) < Rotate(second, 3, 1)
    ensures Ranking(2, shares, 4, 1) == [IdxRem(first, 2), IdxRem(second, 2), IdxRem(large, 0)]
  {
    SmallShares();
    hide Remainder;
    hide Rotate;
    var order := [IdxRem(first, 2), IdxRem(second, 2), IdxRem(large, 0)];
    var entries := Entries(Remainders(2, shares, 4));
    assert entries[first] == order[0] && entries[second] == order[1] && entries[large] == order[2];
    assert order == Rotated(entries, first);
    RotatedMultiset(entries, first);
    assert Sorted(order, Ahead(3, 1));
    hide Ahead;
    hide Sorted;
    hide Ranking;
    RankingFound(2, shares, 4, 1, order);
  }

  lemma OneLeft(shares: seq<Int64>, first: nat, second: nat, large: nat)
    requires |shares| == 3 && first < 3 && second == (first + 1) % 3 && large == (first + 2) % 3
    requires shares[first] == 1 && shares[second] == 1 && shares[large] == 2
    ensures Leftover(2, shares, 4) == 1
  {
    SmallShares();
    hide Base;
    TripleSum(Bases(2, shares, 4));
    hide Sum;
  }

  lemma OneBonus(shares: seq<Int64>, first: nat, second: nat, large: nat)
    requires |shares| == 3 && first < 3 && second == (first + 1) % 3 && large == (first + 2) % 3
    requires shares[first] == 1 && shares[second] == 1 && shares[large] == 2
    requires Rotate(first, 3, 1) < Rotate(second, 3, 1)
    ensures Bonus(2, shares, 4, 1) == {first}
  {
    hide Ranking;
    hide Leftover;
    hide Rotate;
    RankingOf(shares, first, second, large);
    OneLeft(shares, first, second, large);
    assert Ranking(2, shares, 4, 1)[..1] == [IdxRem(first, 2)];
  }

  /** The unit left over goes to the share of 1 whose position comes first in the rotation. */
  lemma OneUnit(shares: seq<Int64>, first: nat, second: nat, large: nat)
    requires |shares| == 3 && first < 3 && second == (first + 1) % 3 && large == (first + 2) % 3
    requires shares[first] == 1 && shares[second] == 1 && shares[large] == 2
    requires Rotate(first, 3, 1) < Rotate(second, 3, 1)
    ensures var out := Apportioned(2, shares, 4, 1);
            |out| == 3 && out[first] == 1 && out[second] == 0 && out[large] == 1
  {
    hide Bonus;
    hide Apportioned;
    hide Base;
    hide Rotate;
    OneBonus(shares, first, second, large);
    SmallShares();
    ApportionmentLaws.ApportionedAt(2, shares, 4, 1, first);
    ApportionmentLaws.ApportionedAt(2, shares, 4, 1, second);
    ApportionmentLaws.ApportionedAt(2, shares, 4, 1, large);
  }

  lemma LargerFirstSplit()
    ensures Apportioned(2, LARGER_FIRST, 4, 1) == [1, 1, 0]
  {
    hide Apportioned;
    hide Rotate;
    Rotation();
    OneUnit(LARGER_FIRST, 1, 2, 0);
  }

  lemma SmallerFirstSplit()
    ensures Apportioned(2, SMALLER_FIRST, 4, 1) == [0, 1, 1]
  {
    hide Apportioned;
    hide Rotate;
    Rotation();
    OneUnit(SMALLER_FIRST, 2, 0, 1);
  }

  /** An outcome of a shares request, from its parts. */
  lemma SharesOutcome(req: Request, amounts: seq<Int64>, sorted: seq<Int64>, idx: seq<nat>, id: string, hash: string -> nat)
    requires req.mode == SHARES && |req.parts| < TWO_63 && SortedIndex(idx, req.parts) && !AnyMissing(req.parts)
    requires |amounts| == |sorted| == |idx| == |req.parts| && forall p | 0 <= p < |idx| :: idx[p] < |req.parts|
    requires Pick(Values(req.parts), idx) == sorted
    requires SharesSplit(req.amount, sorted, id, hash) == Ok(Pick(amounts, idx))
    ensures Outcome(Ok(amounts), req, id, hash, idx)
  {
    hide SharesSplit;
    hide PercentageSplit;
    hide EqualSplit;
    hide ExactSplit;
    hide SortedIndex;
    hide AnyMissing;
    hide Values;
    hide Identity;
  }

  lemma {:induction false} Accepted(sorted: seq<Int64>, out: seq<Int64>, id: string, hash: string -> nat)
    requires id != "" && hash(id) % 3 == 1
    requires |sorted| == 3 && sorted[0] >= 1 && sorted[1] >= 1 && sorted[2] >= 1 && Sum(sorted) == 4
    requires Apportioned(2, sorted, 4, 1) == out
    ensures SharesSplit(2, sorted, id, hash) == Ok(out)
  {
    hide Apportioned;
    hide Sum;
    hide SharesSplit;
    AcceptedShares(2, sorted, id, hash);
  }

  /** What such a request of amount 2 is charged when the rotation starts at its second entry. */
  lemma {:induction false} ThreeEntries(parts: seq<Part>, values: seq<Int64>, out: seq<Int64>, id: string, hash: string -> nat)
    requires id != "" && hash(id) % 3 == 1
    requires |parts| == 3 && parts[0].user <= parts[1].user <= parts[2].user
    requires |values| == 3 && forall i | 0 <= i < 3 :: parts[i].value == Some(values[i]) && values[i] >= 1
    requires Sum(values) == 4 && Apportioned(2, values, 4, 1) == out
    ensures |out| == 3 && SortedIndex(Identity(3), parts) && Outcome(Ok(out), Request(2, SHARES, parts), id, hash, Identity(3))
  {
    hide Apportioned;
    hide SortedIndex;
    hide Outcome;
    hide Values;
    hide AnyMissing;
    hide SharesSplit;
    hide Sum;
    InOrder(parts, values);
    Accepted(values, out, id, hash);
    assert Pick(out, Identity(3)) == out;
    SharesOutcome(Request(2, SHARES, parts), out, values, Identity(3), id, hash);
  }

  /** An amount of 2, shares 2 and 1 for user 1 and 1 for user 2: listed larger first, user 1 is
      charged 2, listed smaller first, 1. Both requests are in user order, so the sort leaves them
      as they are. */
  lemma RepeatedUserMayShift(id: string, hash: string -> nat)
    requires id != "" && hash(id) % 3 == 1
    ensures multiset(SMALLER_PARTS) == multiset(LARGER_PARTS)
    ensures SortedIndex(Identity(3), LARGER_PARTS) && Outcome(Ok([1, 1, 0]), Request(2, SHARES, LARGER_PARTS), id, hash, Identity(3))
    ensures SortedIndex(Identity(3), SMALLER_PARTS) && Outcome(Ok([0, 1, 1]), Request(2, SHARES, SMALLER_PARTS), id, hash, Identity(3))
  {
    hide Apportioned;
    hide SortedIndex;
    hide Outcome;
    Permuted();
    LargerFirstSplit();
    SmallerFirstSplit();
    TripleSum(LARGER_FIRST);
    TripleSum(SMALLER_FIRST);
    hide Sum;
    ThreeEntries(LARGER_PARTS, LARGER_FIRST, [1, 1, 0], id, hash);
    ThreeEntries(SMALLER_PARTS, SMALLER_FIRST, [0, 1, 1], id, hash);
  }
}
