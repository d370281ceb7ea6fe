/** Split computation of CreateExpense and UpdateExpense (internal/expenses/handlers.go):
    both run the same statements on the request, so one method stands for the two. */
module Expenses {
  import opened Entities
  import opened Numbers
  import opened Options
  import opened Sorting
  import opened Grouping
  import opened ApportionmentExact
  import opened Money

  /** One entry of a request's `splits`. */
  datatype Part = Part(user: UserId, value: Option<Int64>)

  datatype Request = Request(amount: Int64, mode: Mode, parts: seq<Part>)

  ghost predicate Distinct(parts: seq<Part>) {
    forall i, j | 0 <= i < j < |parts| :: parts[i].user != parts[j].user
  }

  function Plain(p: Part): Int64 {
    if p.value.Some? then p.value.value else 0
  }

  // ----- the sorted index

  function ByUser(parts: seq<Part>): (nat, nat) -> bool {
    (a: nat, b: nat) => a < |parts| && b < |parts| && parts[a].user < parts[b].user
  }

  function Identity(n: nat): (r: seq<nat>)
    ensures |r| == n && forall i | 0 <= i < n :: r[i] == i
  {
    seq(n, i => i)
  }

  /** `idx` lists every position of `parts` once, in order of user id. */
  ghost predicate SortedIndex(idx: seq<nat>, parts: seq<Part>) {
    multiset(idx) == multiset(Identity(|parts|)) && Sorted(idx, ByUser(parts))
  }

  lemma IndexFacts(idx: seq<nat>, n: nat)
    requires multiset(idx) == multiset(Identity(n))
    ensures |idx| == n
    ensures forall p | 0 <= p < |idx| :: idx[p] < n
    ensures forall i | 0 <= i < n :: i in idx
    ensures forall p, q | 0 <= p < q < |idx| :: idx[p] != idx[q]
  {
    MembersAgree(idx, Identity(n));
    PermutationKeepsDistinct(Identity(n), idx);
    forall p | 0 <= p < |idx|
      ensures idx[p] < n
    {
      assert idx[p] in Identity(n);
    }
    forall i | 0 <= i < n
      ensures i in idx
    {
      assert Identity(n)[i] in Identity(n);
    }
  }

  function Pick<T>(s: seq<T>, idx: seq<nat>): (r: seq<T>)
    requires forall p | 0 <= p < |idx| :: idx[p] < |s|
    ensures |r| == |idx| && forall p | 0 <= p < |idx| :: r[p] == s[idx[p]]
  {
    seq(|idx|, p requires 0 <= p < |idx| => s[idx[p]])
  }

  lemma PickMultiset<T(!new)>(s: seq<T>, idx: seq<nat>)
    requires multiset(idx) == multiset(Identity(|s|)) && s != []
    requires forall p | 0 <= p < |idx| :: idx[p] < |s|
    ensures multiset(Pick(s, idx)) == multiset(s)
  {
    var f := (i: nat) => if i < |s| then s[i] else s[0];
    MapMultiset(f, idx, Identity(|s|));
    assert Map(f, idx) == Pick(s, idx);
    assert Map(f, Identity(|s|)) == s;
  }

  // ----- what the handler computes

  ghost predicate AnyMissing(parts: seq<Part>) {
    exists i | 0 <= i < |parts| :: parts[i].value.None?
  }

  function Values(parts: seq<Part>): (r: seq<Int64>)
    ensures |r| == |parts|
  {
    Map(Plain, parts)
  }

  /** The split function of the mode on the values in the order given. */
  ghost function ModeSplit(req: Request, values: seq<Int64>, id: string, hash: string -> nat): SplitResult
    requires |values| < TWO_63
  {
    match req.mode
    case EQUAL => EqualSplit(req.amount, |values|, id, hash)
    case EXACT => ExactSplit(req.amount, values)
    case PERCENTAGE => PercentageSplit(req.amount, values, id, hash)
    case SHARES => SharesSplit(req.amount, values, id, hash)
  }

  /** `r` is a possible outcome: amounts computed in user order, put back in request order. */
  ghost predicate Outcome(r: SplitResult, req: Request, id: string, hash: string -> nat, idx: seq<nat>)
    requires |req.parts| < TWO_63 && SortedIndex(idx, req.parts)
  {
    IndexFacts(idx, |req.parts|);
    if req.mode != EQUAL && AnyMissing(req.parts) then r == Err(ValueMissing)
    else
      var sorted := ModeSplit(req, Pick(Values(req.parts), idx), id, hash);
      match sorted
      case Err(e) => r == Err(e)
      case Ok(amounts) => r.Ok? && |amounts| == |idx| && |r.value| == |idx| && Pick(r.value, idx) == amounts
  }

  lemma OutcomeLength(r: SplitResult, req: Request, id: string, hash: string -> nat, idx: seq<nat>)
    requires |req.parts| < TWO_63 && SortedIndex(idx, req.parts) && Outcome(r, req, id, hash, idx)
    ensures r.Ok? ==> |r.value| == |req.parts|
  {
    IndexFacts(idx, |req.parts|);
  }

  lemma ModeSplitLength(req: Request, values: seq<Int64>, id: string, hash: string -> nat)
    requires |values| < TWO_63
    ensures var r := ModeSplit(req, values, id, hash); r.Ok? ==> |r.value| == |values|
  {
  }

  /** `sortedIdx`: positions in order of user id. */
  method SortIndex(parts: seq<Part>) returns (sortedIdx: array<nat>)
    ensures fresh(sortedIdx) && SortedIndex(sortedIdx[..], parts)
  {
    var n := |parts|;
    sortedIdx := new nat[n];
    for i := 0 to n
      invariant forall j | 0 <= j < i :: sortedIdx[j] == j
    {
      sortedIdx[i] := i;
    }
    assert sortedIdx[..] == Identity(n);
    SortSlice(sortedIdx, ByUser(parts));
  }

  /** The request's values, or None when the mode needs one that is missing. */
  method ReadValues(req: Request) returns (r: Option<seq<Int64>>)
    ensures r == if req.mode != EQUAL && AnyMissing(req.parts) then None else Some(Values(req.parts))
  {
    var n := |req.parts|;
    var values := new Int64[n];
    for i := 0 to n
      invariant forall j | 0 <= j < i :: values[j] == Plain(req.parts[j])
      invariant req.mode != EQUAL ==> forall j | 0 <= j < i :: req.parts[j].value.Some?
    {
      if req.mode != EQUAL && req.parts[i].value.None? {
        return None;
      }
      values[i] := Plain(req.parts[i]);
    }
    assert values[..] == Values(req.parts);
    return Some(values[..]);
  }

  /** `sortedX[sortedPos] = x[origIdx]` */
  method Gather(x: seq<Int64>, sortedIdx: array<nat>) returns (sortedX: seq<Int64>)
    requires multiset(sortedIdx[..]) == multiset(Identity(|x|))
    ensures |sortedX| == |x|
    ensures forall p | 0 <= p < sortedIdx.Length :: sortedIdx[..][p] < |x|
    ensures sortedX == Pick(x, sortedIdx[..])
  {
    var n := sortedIdx.Length;
    IndexFacts(sortedIdx[..], |x|);
    var out := new Int64[n];
    assert forall q | 0 <= q < n :: sortedIdx[..][q] == sortedIdx[q];
    for p := 0 to n
      invariant forall q | 0 <= q < p :: out[q] == x[sortedIdx[q]]
    {
      out[p] := x[sortedIdx[p]];
    }
    sortedX := out[..];
  }

  /** `x[origIdx] = sortedX[sortedPos]` */
  method Scatter(sortedX: seq<Int64>, sortedIdx: array<nat>) returns (x: seq<Int64>)
    requires multiset(sortedIdx[..]) == multiset(Identity(|sortedX|))
    ensures |x| == |sortedX|
    ensures forall p | 0 <= p < sortedIdx.Length :: sortedIdx[..][p] < |x|
    ensures Pick(x, sortedIdx[..]) == sortedX
  {
    var n := sortedIdx.Length;
    ghost var idx := sortedIdx[..];
    IndexFacts(idx, |sortedX|);
    var out := new Int64[n];
    for p := 0 to n
      invariant sortedIdx[..] == idx
      invariant forall q | 0 <= q < p :: out[idx[q]] == sortedX[q]
    {
      out[sortedIdx[p]] := sortedX[p];
    }
    x := out[..];
  }

  /** The split the two handlers write for a request, for the expense with id `id`. */
  method ComputeSplit(req: Request, id: string, hash: string -> nat) returns (r: SplitResult, ghost idx: seq<nat>)
    requires |req.parts| < TWO_63
    ensures SortedIndex(idx, req.parts) && Outcome(r, req, id, hash, idx)
  {
    hide EqualSplit;
    hide PercentageSplit;
    hide SharesSplit;
    hide ExactSplit;
    var n := |req.parts|;
    var sortedIdx := SortIndex(req.parts);
    idx := sortedIdx[..];
    IndexFacts(idx, n);
    var read := ReadValues(req);
    if read.None? {
      return Err(ValueMissing), idx;
    }
    var values := read.value;
    if req.mode == EXACT {
      r := SplitExact(req.amount, values);
      ExactIgnoresOrder(req, values, idx);
      return r, idx;
    }
    var sortedValues := Gather(values, sortedIdx);
    ModeSplitLength(req, sortedValues, id, hash);
    var split: SplitResult;
    match req.mode {
      case EQUAL => split := SplitEqualWithID(req.amount, n, id, hash);
      case PERCENTAGE => split := SplitByPercentageWithID(req.amount, sortedValues, id, hash);
      case SHARES => split := SplitBySharesWithID(req.amount, sortedValues, id, hash);
    }
    if split.Err? {
      return split, idx;
    }
    var amounts := Scatter(split.value, sortedIdx);
    r := Ok(amounts);
  }

  lemma ExactIgnoresOrder(req: Request, values: seq<Int64>, idx: seq<nat>)
    requires multiset(idx) == multiset(Identity(|values|))
    requires forall p | 0 <= p < |idx| :: idx[p] < |values|
    ensures var r := ExactSplit(req.amount, values);
            var s := ExactSplit(req.amount, Pick(values, idx));
            if r.Ok? then r.value == values && s == Ok(Pick(values, idx)) else s == r
  {
    IndexFacts(idx, |values|);
    if values != [] {
      PickMultiset(values, idx);
      AnyBelowMultiset(values, Pick(values, idx), 0);
      SumMultiset(values, Pick(values, idx));
    }
  }

  lemma AnyBelowMultiset(s: seq<Int64>, t: seq<Int64>, bound: int)
    requires multiset(s) == multiset(t)
    ensures AnyBelow(s, bound) <==> AnyBelow(t, bound)
  {
    MembersAgree(s, t);
    if AnyBelow(s, bound) {
      var i :| 0 <= i < |s| && s[i] < bound;
      assert s[i] in t;
    }
    if AnyBelow(t, bound) {
      var i :| 0 <= i < |t| && t[i] < bound;
      assert t[i] in s;
    }
  }

  // ----- the order of the request does not matter

  function UserOrder(): (Part, Part) -> bool {
    (a: Part, b: Part) => a.user < b.user
  }

  lemma PickedIsSorted(parts: seq<Part>, idx: seq<nat>)
    requires SortedIndex(idx, parts)
    ensures |idx| == |parts| && forall p | 0 <= p < |idx| :: idx[p] < |parts|
    ensures Sorted(Pick(parts, idx), UserOrder())
    ensures multiset(Pick(parts, idx)) == multiset(parts)
  {
    IndexFacts(idx, |parts|);
    var picked := Pick(parts, idx);
    forall p, q | 0 <= p < q < |picked|
      ensures !UserOrder()(picked[q], picked[p])
    {
      assert !ByUser(parts)(idx[q], idx[p]);
    }
    if parts != [] { PickMultiset(parts, idx); }
  }

  lemma DistinctNeverTies(parts: seq<Part>)
    requires Distinct(parts)
    ensures NeverTies(parts, UserOrder())
  {
    forall x, y | x in parts && y in parts && x != y
      ensures UserOrder()(x, y) || UserOrder()(y, x)
    {
      var i :| 0 <= i < |parts| && parts[i] == x;
      var j :| 0 <= j < |parts| && parts[j] == y;
      assert i < j || j < i;
    }
  }

  /** Reordered requests are sorted into the same list of parts. */
  lemma SameSortedParts(a: seq<Part>, ia: seq<nat>, b: seq<Part>, ib: seq<nat>)
    requires multiset(a) == multiset(b) && Distinct(a)
    requires SortedIndex(ia, a) && SortedIndex(ib, b)
    ensures |ia| == |a| == |b| == |ib|
    ensures forall p | 0 <= p < |ia| :: ia[p] < |a| && ib[p] < |b|
    ensures Pick(a, ia) == Pick(b, ib)
  {
    PickedIsSorted(a, ia);
    PickedIsSorted(b, ib);
    MembersAgree(a, b);
    DistinctNeverTies(a);
    OrderCarriesOver(a, Pick(a, ia), UserOrder());
    SortedUnique(Pick(a, ia), Pick(b, ib), UserOrder());
  }

  lemma PickValues(parts: seq<Part>, idx: seq<nat>)
    requires |idx| == |parts| && forall p | 0 <= p < |idx| :: idx[p] < |parts|
    ensures Pick(Values(parts), idx) == Values(Pick(parts, idx))
  {
  }

  lemma MissingIgnoresOrder(a: seq<Part>, b: seq<Part>)
    requires multiset(a) == multiset(b)
    ensures AnyMissing(a) <==> AnyMissing(b)
  {
    MembersAgree(a, b);
    if AnyMissing(a) {
      var i :| 0 <= i < |a| && a[i].value.None?;
      assert a[i] in b;
    }
    if AnyMissing(b) {
      var i :| 0 <= i < |b| && b[i].value.None?;
      assert b[i] in a;
    }
  }

  /** Permuting a request's splits changes neither the verdict nor anybody's amount; the
      same holds between the split a creation writes and the one an update writes. */
  lemma OrderIndependent(a: Request, b: Request, id: string, hash: string -> nat,
                         ra: SplitResult, ia: seq<nat>, rb: SplitResult, ib: seq<nat>)
    requires a.amount == b.amount && a.mode == b.mode && multiset(a.parts) == multiset(b.parts)
    requires Distinct(a.parts) && |a.parts| < TWO_63 && |b.parts| < TWO_63
    requires SortedIndex(ia, a.parts) && Outcome(ra, a, id, hash, ia)
    requires SortedIndex(ib, b.parts) && Outcome(rb, b, id, hash, ib)
    ensures ra.Err? ==> rb == ra
    ensures ra.Ok? ==> rb.Ok? && |ra.value| == |rb.value| == |a.parts| == |b.parts|
    ensures ra.Ok? ==> forall i, j | 0 <= i < |a.parts| && 0 <= j < |b.parts| && a.parts[i].user == b.parts[j].user ::
                         ra.value[i] == rb.value[j]
  {
    SameSortedParts(a.parts, ia, b.parts, ib);
    PickValues(a.parts, ia);
    PickValues(b.parts, ib);
    MissingIgnoresOrder(a.parts, b.parts);
    assert ModeSplit(a, Pick(Values(a.parts), ia), id, hash) == ModeSplit(b, Pick(Values(b.parts), ib), id, hash);
    if ra.Ok? {
      IndexFacts(ia, |a.parts|);
      IndexFacts(ib, |b.parts|);
      forall i, j | 0 <= i < |a.parts| && 0 <= j < |b.parts| && a.parts[i].user == b.parts[j].user
        ensures ra.value[i] == rb.value[j]
      {
        var p := PositionOf(ia, i);
        var q := PositionOf(ib, j);
        SamePosition(a.parts, ia, b.parts, ib, p, q);
        assert Pick(ra.value, ia)[p] == Pick(rb.value, ib)[q];
      }
    }
  }

  lemma PositionOf(idx: seq<nat>, i: nat) returns (p: nat)
    requires i in idx
    ensures p < |idx| && idx[p] == i
  {
    p :| 0 <= p < |idx| && idx[p] == i;
  }

  lemma SamePosition(a: seq<Part>, ia: seq<nat>, b: seq<Part>, ib: seq<nat>, p: nat, q: nat)
    requires |ia| == |a| == |b| == |ib| && forall r | 0 <= r < |ia| :: ia[r] < |a| && ib[r] < |b|
    requires Pick(a, ia) == Pick(b, ib) && Distinct(a)
    requires forall r, s | 0 <= r < s < |ia| :: ia[r] != ia[s]
    requires p < |ia| && q < |ib| && a[ia[p]].user == b[ib[q]].user
    ensures p == q
  {
    assert b[ib[q]] == Pick(b, ib)[q] == Pick(a, ia)[q] == a[ia[q]];
    assert a[ia[p]].user == a[ia[q]].user;
    assert ia[p] == ia[q];
  }

  // ----- a user named more than once

  /** Entries that name the same user carry the same value. */
  ghost predicate RepeatsAgree(parts: seq<Part>) {
    forall i, j | 0 <= i < |parts| && 0 <= j < |parts| && parts[i].user == parts[j].user :: parts[i] == parts[j]
  }

  function UserOf(p: Part): int { p.user }

  lemma SameSortedUsers(a: seq<Part>, ia: seq<nat>, b: seq<Part>, ib: seq<nat>)
    requires multiset(a) == multiset(b) && SortedIndex(ia, a) && SortedIndex(ib, b)
    ensures |ia| == |a| == |b| == |ib|
    ensures forall p | 0 <= p < |ia| :: ia[p] < |a| && ib[p] < |b|
    ensures Map(UserOf, Pick(a, ia)) == Map(UserOf, Pick(b, ib))
    ensures RepeatsAgree(a) ==> Pick(a, ia) == Pick(b, ib)
  {
    PickedIsSorted(a, ia);
    PickedIsSorted(b, ib);
    MembersAgree(a, b);
    var s, t, less := Pick(a, ia), Pick(b, ib), (x: int, y: int) => x < y;
    MapMultiset(UserOf, s, t);
    forall p, q | 0 <= p < q < |s|
      ensures !less(Map(UserOf, s)[q], Map(UserOf, s)[p]) && !less(Map(UserOf, t)[q], Map(UserOf, t)[p])
    {
      assert !UserOrder()(s[q], s[p]) && !UserOrder()(t[q], t[p]);
    }
    SortedUnique(Map(UserOf, s), Map(UserOf, t), less);
    if RepeatsAgree(a) {
      AgreeingNeverTies(a);
      OrderCarriesOver(a, s, UserOrder());
      SortedUnique(s, t, UserOrder());
    }
  }

  lemma AgreeingNeverTies(parts: seq<Part>)
    requires RepeatsAgree(parts)
    ensures NeverTies(parts, UserOrder())
  {
    forall x, y | x in parts && y in parts && x != y
      ensures UserOrder()(x, y) || UserOrder()(y, x)
    {
      var i :| 0 <= i < |parts| && parts[i] == x;
      var j :| 0 <= j < |parts| && parts[j] == y;
      assert parts[i].user != parts[j].user;
    }
  }

  /** A user's total over the rows is the total over the rows in user order. */
  lemma {:induction false} SortedRowsTotal(parts: seq<Part>, amounts: seq<Int64>, idx: seq<nat>, u: int)
    requires |amounts| == |parts| && SortedIndex(idx, parts)
    ensures |idx| == |parts| && forall p | 0 <= p < |idx| :: idx[p] < |parts|
    ensures Total(RowItems(Map(UserOf, parts), amounts), u)
         == Total(RowItems(Map(UserOf, Pick(parts, idx)), Pick(amounts, idx)), u)
  {
    IndexFacts(idx, |parts|);
    var items := RowItems(Map(UserOf, parts), amounts);
    assert Pick(items, idx) == RowItems(Map(UserOf, Pick(parts, idx)), Pick(amounts, idx));
    if parts != [] {
      PickMultiset(items, idx);
      TotalMultiset(items, Pick(items, idx), u);
    }
  }

  lemma ValuesMultiset(a: seq<Part>, ia: seq<nat>, b: seq<Part>, ib: seq<nat>)
    requires multiset(a) == multiset(b) && SortedIndex(ia, a) && SortedIndex(ib, b)
    ensures |ia| == |a| == |b| == |ib|
    ensures forall p | 0 <= p < |ia| :: ia[p] < |a| && ib[p] < |b|
    ensures multiset(Pick(Values(a), ia)) == multiset(Pick(Values(b), ib))
  {
    PickedIsSorted(a, ia);
    PickedIsSorted(b, ib);
    MembersAgree(a, b);
    MapMultiset(Plain, Pick(a, ia), Pick(b, ib));
    assert Map(Plain, Pick(a, ia)) == Pick(Values(a), ia);
    assert Map(Plain, Pick(b, ib)) == Pick(Values(b), ib);
  }

  lemma ModeVerdict(req: Request, s: seq<Int64>, t: seq<Int64>, id: string, hash: string -> nat)
    requires multiset(s) == multiset(t) && |s| < TWO_63 && |t| < TWO_63
    ensures var x, y := ModeSplit(req, s, id, hash), ModeSplit(req, t, id, hash);
            (x.Err? ==> y == x) && (x.Ok? ==> y.Ok?)
  {
    MembersAgree(s, t);
    SumMultiset(s, t);
    AnyBelowMultiset(s, t, 0);
    AnyBelowMultiset(s, t, 1);
    hide Sum;
    hide AnyBelow;
  }

  /** The verdict does not depend on the order of the request, users named repeatedly included. */
  lemma VerdictOrderIndependent(a: Request, b: Request, id: string, hash: string -> nat,
                                ra: SplitResult, ia: seq<nat>, rb: SplitResult, ib: seq<nat>)
    requires a.amount == b.amount && a.mode == b.mode && multiset(a.parts) == multiset(b.parts)
    requires |a.parts| < TWO_63 && |b.parts| < TWO_63
    requires SortedIndex(ia, a.parts) && Outcome(ra, a, id, hash, ia)
    requires SortedIndex(ib, b.parts) && Outcome(rb, b, id, hash, ib)
    ensures |a.parts| == |b.parts|
    ensures ra.Err? ==> rb == ra
    ensures ra.Ok? ==> rb.Ok? && |ra.value| == |a.parts| && |rb.value| == |b.parts|
  {
    ValuesMultiset(a.parts, ia, b.parts, ib);
    MissingIgnoresOrder(a.parts, b.parts);
    hide SortedIndex;
    hide Values;
    hide AnyMissing;
    ModeVerdict(a, Pick(Values(a.parts), ia), Pick(Values(b.parts), ib), id, hash);
    assert ModeSplit(a, Pick(Values(b.parts), ib), id, hash) == ModeSplit(b, Pick(Values(b.parts), ib), id, hash) by {
      hide EqualSplit;
      hide ExactSplit;
      hide PercentageSplit;
      hide SharesSplit;
    }
    hide ModeSplit;
  }

  function ItemOf(p: Part): Item<int> { Item(p.user, Plain(p)) }

  /** An EXACT request charges each entry its own value. */
  lemma ExactValues(req: Request, r: SplitResult, id: string, hash: string -> nat, idx: seq<nat>)
    requires |req.parts| < TWO_63 && SortedIndex(idx, req.parts) && Outcome(r, req, id, hash, idx)
    requires req.mode == EXACT && r.Ok?
    ensures |r.value| == |req.parts| && RowItems(Map(UserOf, req.parts), r.value) == Map(ItemOf, req.parts)
  {
    IndexFacts(idx, |req.parts|);
    forall i | 0 <= i < |req.parts|
      ensures r.value[i] == Values(req.parts)[i]
    {
      var p := PositionOf(idx, i);
      assert Pick(r.value, idx)[p] == Pick(Values(req.parts), idx)[p];
    }
  }

  /** With a user named more than once, permuting the request changes neither the verdict nor any
      user's total: always in EQUAL and EXACT mode, and in the other modes when entries that name
      the same user carry the same value. `ExpensesRepeats.TotalsOrderIndependentIff` says exactly
      when. */
  lemma {:induction false} TotalsOrderIndependent(a: Request, b: Request, id: string, hash: string -> nat,
                                                  ra: SplitResult, ia: seq<nat>, rb: SplitResult, ib: seq<nat>, u: int)
    requires a.amount == b.amount && a.mode == b.mode && multiset(a.parts) == multiset(b.parts)
    requires |a.parts| < TWO_63 && |b.parts| < TWO_63
    requires a.mode == EQUAL || a.mode == EXACT || RepeatsAgree(a.parts)
    requires SortedIndex(ia, a.parts) && Outcome(ra, a, id, hash, ia)
    requires SortedIndex(ib, b.parts) && Outcome(rb, b, id, hash, ib)
    ensures ra.Err? ==> rb == ra
    ensures ra.Ok? ==> rb.Ok? && |ra.value| == |a.parts| && |rb.value| == |b.parts|
    ensures ra.Ok? ==> Total(RowItems(Map(UserOf, a.parts), ra.value), u) == Total(RowItems(Map(UserOf, b.parts), rb.value), u)
  {
    VerdictOrderIndependent(a, b, id, hash, ra, ia, rb, ib);
    if ra.Ok? && a.mode == EXACT {
      ExactValues(a, ra, id, hash, ia);
      ExactValues(b, rb, id, hash, ib);
      hide Outcome;
      hide SortedIndex;
      MapMultiset(ItemOf, a.parts, b.parts);
      TotalMultiset(Map(ItemOf, a.parts), Map(ItemOf, b.parts), u);
    } else if ra.Ok? {
      SameModeTotals(a, b, id, hash, ra, ia, rb, ib, u);
    }
  }

  lemma {:induction false} SameModeTotals(a: Request, b: Request, id: string, hash: string -> nat,
                                          ra: SplitResult, ia: seq<nat>, rb: SplitResult, ib: seq<nat>, u: int)
    requires a.amount == b.amount && a.mode == b.mode && multiset(a.parts) == multiset(b.parts)
    requires |a.parts| < TWO_63 && |b.parts| < TWO_63
    requires a.mode == EQUAL || RepeatsAgree(a.parts)
    requires SortedIndex(ia, a.parts) && Outcome(ra, a, id, hash, ia) && ra.Ok? && |ra.value| == |a.parts|
    requires SortedIndex(ib, b.parts) && Outcome(rb, b, id, hash, ib) && rb.Ok? && |rb.value| == |b.parts|
    ensures Total(RowItems(Map(UserOf, a.parts), ra.value), u) == Total(RowItems(Map(UserOf, b.parts), rb.value), u)
  {
    SameSortedUsers(a.parts, ia, b.parts, ib);
    PickValues(a.parts, ia);
    PickValues(b.parts, ib);
    assert ModeSplit(a, Pick(Values(a.parts), ia), id, hash) == ModeSplit(b, Pick(Values(b.parts), ib), id, hash) by {
      hide EqualSplit;
      hide ExactSplit;
      hide PercentageSplit;
      hide SharesSplit;
    }
    hide ModeSplit;
    hide SortedIndex;
    SortedRowsTotal(a.parts, ra.value, ia, u);
    SortedRowsTotal(b.parts, rb.value, ib, u);
  }

  // ----- accepted splits add up

  /** Whether a request's amount survives the split, read off its values. EXACT: the true sum
      fits in int64. PERCENTAGE and SHARES: what the quotients leave over passes the guard of
      the loop that hands it out. */
  ghost predicate Conserves(req: Request) {
    var values := Values(req.parts);
    match req.mode
    case EQUAL => true
    case EXACT => Sum(values) < TWO_63
    case PERCENTAGE => Coverable(req.amount, values, 10000)
    case SHARES => Wrap(Sum(values)) != 0 && Coverable(req.amount, values, Wrap(Sum(values)))
  }

  lemma CoverableIgnoresOrder(amount: Int64, s: seq<Int64>, t: seq<Int64>, total: Int64)
    requires multiset(s) == multiset(t) && total != 0
    ensures Coverable(amount, s, total) <==> Coverable(amount, t, total)
  {
    BasesIgnoreOrder(amount, s, t, total);
    UndistributedIs(amount, s, total);
    UndistributedIs(amount, t, total);
    MembersAgree(s, t);
  }

  /** An accepted split's rows sum to the request's amount if and only if the request conserves it. */
  lemma SplitAddsUp(r: SplitResult, req: Request, id: string, hash: string -> nat, idx: seq<nat>)
    requires |req.parts| < TWO_63 && SortedIndex(idx, req.parts) && Outcome(r, req, id, hash, idx)
    requires r.Ok?
    ensures |r.value| == |req.parts|
    ensures Sum(r.value) == req.amount <==> Conserves(req)
  {
    IndexFacts(idx, |req.parts|);
    var values := Values(req.parts);
    var sorted := Pick(values, idx);
    hide SortedIndex;
    hide Sum;
    hide Coverable;
    if req.parts != [] {
      PickMultiset(values, idx);
      PickMultiset(r.value, idx);
      SumMultiset(values, sorted);
      SumMultiset(r.value, Pick(r.value, idx));
      SortedAddsUp(req, values, sorted, id, hash);
    }
  }

  lemma SortedAddsUp(req: Request, values: seq<Int64>, sorted: seq<Int64>, id: string, hash: string -> nat)
    requires multiset(values) == multiset(sorted) && |values| < TWO_63 && |sorted| < TWO_63
    requires values == Values(req.parts) && ModeSplit(req, sorted, id, hash).Ok?
    ensures Sum(ModeSplit(req, sorted, id, hash).value) == req.amount <==> Conserves(req)
  {
    hide Coverable;
    SumMultiset(values, sorted);
    match req.mode {
      case EQUAL => EqualSplitSums(req.amount, |sorted|, id, hash);
      case EXACT => ExactSplitSums(req.amount, sorted);
      case PERCENTAGE =>
        ProportionalSplitsSum(req.amount, sorted, id, hash);
        hide PercentageSplit;
        CoverableIgnoresOrder(req.amount, values, sorted, 10000);
      case SHARES =>
        ProportionalSplitsSum(req.amount, sorted, id, hash);
        hide SharesSplit;
        CoverableIgnoresOrder(req.amount, values, sorted, Wrap(Sum(values)));
    }
  }
}
