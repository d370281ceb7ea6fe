/** Apportionment among claims some of which have the same owner (internal/money/split.go): which
    owners get the bonus units, in closed form. */
module ApportionmentTies {
  import opened Numbers
  import opened Sorting
  import opened Filtering
  import opened Grouping
  import opened Apportionment
  import opened ApportionmentLaws
  import opened ApportionmentExact

  datatype Claim = Claim(owner: int, share: Int64)

  function OwnerOf(c: Claim): int { c.owner }

  function Owners(s: seq<Claim>): (r: seq<int>)
    ensures |r| == |s|
  {
    Map(OwnerOf, s)
  }

  function Shares(s: seq<Claim>): (r: seq<Int64>)
    ensures |r| == |s|
  {
    Map((c: Claim) => c.share, s)
  }

  // ----- tests on remainders

  function Gt(theta: int): int -> bool { (x: int) => x > theta }
  function Eq(theta: int): int -> bool { (x: int) => x == theta }
  function Lt(theta: int): int -> bool { (x: int) => x < theta }

  function OnEntry(p: int -> bool): IdxRem -> bool { (e: IdxRem) => p(e.rem) }

  function OnClaim(p: int -> bool, amount: Int64, total: Int64): Claim -> bool
    requires total != 0
  {
    (c: Claim) => p(Remainder(amount, c.share, total))
  }

  /** The claims, or entries, listed from `offset` round to it again. */
  function Rotated<T>(s: seq<T>, offset: nat): (r: seq<T>)
    requires offset <= |s|
    ensures |r| == |s|
  {
    s[offset..] + s[..offset]
  }

  lemma RotatedMultiset<T(!new)>(s: seq<T>, offset: nat)
    requires offset <= |s|
    ensures multiset(Rotated(s, offset)) == multiset(s)
  {
    assert s == s[..offset] + s[offset..];
  }

  // ----- the ranking in blocks

  function EntriesOf(amount: Int64, total: Int64, s: seq<Claim>): (r: seq<IdxRem>)
    requires total != 0
    ensures |r| == |s|
    ensures forall i | 0 <= i < |s| :: r[i] == IdxRem(i, Remainder(amount, s[i].share, total))
  {
    Entries(Remainders(amount, Shares(s), total))
  }

  /** Larger remainders than `theta`, then equal ones, then smaller ones. */
  lemma RankingBlocks(amount: Int64, shares: seq<Int64>, total: Int64, offset: nat, theta: int)
    requires total != 0 && offset < |shares|
    ensures var r := Ranking(amount, shares, total, offset);
            r == Filter(OnEntry(Gt(theta)), r) + Filter(OnEntry(Eq(theta)), r) + Filter(OnEntry(Lt(theta)), r)
  {
    RankingIsSorted(amount, shares, total, offset);
    var r := Ranking(amount, shares, total, offset);
    hide Ranking;
    hide Filter;
    var less := Ahead(|shares|, offset);
    forall i, j | 0 <= i < j < |r|
      ensures r[i].rem >= r[j].rem
    {
      assert !less(r[j], r[i]);
    }
    ThreeClasses(r, OnEntry(Gt(theta)), OnEntry(Eq(theta)), OnEntry(Lt(theta)));
  }

  function ByRotation(n: nat, offset: nat): (IdxRem, IdxRem) -> bool
    requires n != 0
  {
    (a: IdxRem, b: IdxRem) => Rotate(a.idx, n, offset) < Rotate(b.idx, n, offset)
  }

  lemma RotationSorted(entries: seq<IdxRem>, offset: nat)
    requires offset < |entries| && forall i | 0 <= i < |entries| :: entries[i].idx == i
    ensures Sorted(Rotated(entries, offset), ByRotation(|entries|, offset))
  {
    var n, r := |entries|, Rotated(entries, offset);
    forall p | 0 <= p < n
      ensures Rotate(r[p].idx, n, offset) == p
    {
      assert r[p].idx == if p < n - offset then p + offset else p + offset - n;
      RotateClosedForm(r[p].idx, n, offset);
    }
    hide Rotate;
  }

  /** Entries that tie are ranked by their place in the rotation. */
  lemma TiesInRotation(amount: Int64, total: Int64, s: seq<Claim>, offset: nat, theta: int)
    requires total != 0 && offset < |s|
    ensures Filter(OnEntry(Eq(theta)), Ranking(amount, Shares(s), total, offset))
         == Filter(OnEntry(Eq(theta)), Rotated(EntriesOf(amount, total, s), offset))
  {
    var entries, n, keep := EntriesOf(amount, total, s), |s|, OnEntry(Eq(theta));
    var ranking, turned := Ranking(amount, Shares(s), total, offset), Rotated(entries, offset);
    var less := Ahead(n, offset);
    RankingIsSorted(amount, Shares(s), total, offset);
    assert multiset(ranking) == multiset(entries);
    hide Ranking;
    hide Filter;
    RotatedMultiset(entries, offset);
    FilterMultiset(keep, ranking, turned);
    FilterSorted(keep, ranking, less);
    RotationSorted(entries, offset);
    FilterSorted(keep, turned, ByRotation(n, offset));
    TiesSorted(Filter(keep, turned), theta, n, offset) by { FilterMembers(keep, turned); }
    NeverTiesWithin(entries, turned, keep, less);
    OrderCarriesOver(Filter(keep, turned), Filter(keep, ranking), less);
    SortedUnique(Filter(keep, turned), Filter(keep, ranking), less);
  }

  lemma TiesSorted(s: seq<IdxRem>, theta: int, n: nat, offset: nat)
    requires n != 0 && Sorted(s, ByRotation(n, offset)) && forall e | e in s :: OnEntry(Eq(theta))(e)
    ensures Sorted(s, Ahead(n, offset))
  {
    hide Rotate;
    forall i, j | 0 <= i < j < |s|
      ensures !Ahead(n, offset)(s[j], s[i])
    {
      assert s[i] in s && s[j] in s;
      assert OnEntry(Eq(theta))(s[i]) && OnEntry(Eq(theta))(s[j]);
      assert !ByRotation(n, offset)(s[j], s[i]);
    }
  }

  lemma {:induction false} NeverTiesWithin(entries: seq<IdxRem>, turned: seq<IdxRem>, keep: IdxRem -> bool, less: (IdxRem, IdxRem) -> bool)
    requires NeverTies(entries, less) && multiset(turned) == multiset(entries)
    ensures NeverTies(Filter(keep, turned), less)
  {
    MembersAgree(turned, entries);
    FilterMembers(keep, turned);
  }

  // ----- from entries to owners

  function OwnerAt(owners: seq<int>): IdxRem -> int {
    (e: IdxRem) => if e.idx < |owners| then owners[e.idx] else 0
  }

  /** Testing a run of entries and of claims gives the same owners. */
  lemma FilterEntries(p: int -> bool, amount: Int64, total: Int64, s: seq<Claim>, a: nat, b: nat)
    requires total != 0 && a <= b <= |s|
    ensures Map(OwnerAt(Owners(s)), Filter(OnEntry(p), EntriesOf(amount, total, s)[a..b]))
         == Map(OwnerOf, Filter(OnClaim(p, amount, total), s[a..b]))
  {
    var entries, claims := EntriesOf(amount, total, s)[a..b], s[a..b];
    hide EntriesOf;
    hide Remainder;
    hide Filter;
    forall i | 0 <= i < |claims|
      ensures OnEntry(p)(entries[i]) == OnClaim(p, amount, total)(claims[i])
      ensures OwnerAt(Owners(s))(entries[i]) == OwnerOf(claims[i])
    {
      assert entries[i] == IdxRem(a + i, Remainder(amount, s[a + i].share, total));
    }
    ParallelFilter(OwnerAt(Owners(s)), OwnerOf, OnEntry(p), OnClaim(p, amount, total), entries, claims);
  }

  /** Owners of the tied claims, from `offset` round. */
  function Turned(tied: Claim -> bool, s: seq<Claim>, offset: nat): seq<int>
    requires offset <= |s|
  {
    Owners(Filter(tied, s[offset..])) + Owners(Filter(tied, s[..offset]))
  }

  function AboveCount(amount: Int64, total: Int64, s: seq<Claim>, theta: int): nat
    requires total != 0
  {
    |Filter(OnClaim(Gt(theta), amount, total), s)|
  }

  /** The owners of the ranking's middle block. */
  lemma RankedTies(amount: Int64, total: Int64, s: seq<Claim>, offset: nat, theta: int)
    requires total != 0 && offset < |s|
    ensures Map(OwnerAt(Owners(s)), Filter(OnEntry(Eq(theta)), Ranking(amount, Shares(s), total, offset)))
         == Turned(OnClaim(Eq(theta), amount, total), s, offset)
  {
    var entries, keep, tied, owner := EntriesOf(amount, total, s), OnEntry(Eq(theta)), OnClaim(Eq(theta), amount, total), OwnerAt(Owners(s));
    assert entries[offset..|s|] == entries[offset..] && s[offset..|s|] == s[offset..];
    assert entries[0..offset] == entries[..offset] && s[0..offset] == s[..offset];
    assert Turned(tied, s, offset) == Map(OwnerOf, Filter(tied, s[offset..])) + Map(OwnerOf, Filter(tied, s[..offset]));
    assert Rotated(entries, offset) == entries[offset..] + entries[..offset];
    hide *;
    TiesInRotation(amount, total, s, offset, theta);
    FilterAppend(keep, entries[offset..], entries[..offset]);
    FilterEntries(Eq(theta), amount, total, s, offset, |s|);
    FilterEntries(Eq(theta), amount, total, s, 0, offset);
    MapAppend(owner, Filter(keep, entries[offset..]), Filter(keep, entries[..offset]));
  }

  /** The owners of its first block, in some order. */
  lemma {:induction false} RankedAbove(amount: Int64, total: Int64, s: seq<Claim>, offset: nat, theta: int)
    requires total != 0 && offset < |s|
    ensures var above := Filter(OnEntry(Gt(theta)), Ranking(amount, Shares(s), total, offset));
            && |above| == AboveCount(amount, total, s, theta)
            && multiset(Map(OwnerAt(Owners(s)), above)) == multiset(Owners(Filter(OnClaim(Gt(theta), amount, total), s)))
  {
    var entries, keep := EntriesOf(amount, total, s), OnEntry(Gt(theta));
    var ranking := Ranking(amount, Shares(s), total, offset);
    assert multiset(ranking) == multiset(entries);
    hide EntriesOf;
    hide Filter;
    hide Ranking;
    FilterMultiset(keep, ranking, entries);
    MapMultiset(OwnerAt(Owners(s)), Filter(keep, ranking), Filter(keep, entries));
    FilterEntries(Gt(theta), amount, total, s, 0, |s|);
    assert entries[0..|s|] == entries && s[0..|s|] == s;
    MembersAgree(Map(OwnerAt(Owners(s)), Filter(keep, ranking)), Owners(Filter(OnClaim(Gt(theta), amount, total), s)));
  }

  /** `theta` is the remainder of the last bonus: fewer than `k` claims lie above it, and no fewer
      than `k` at or above it. */
  ghost predicate Cutoff(amount: Int64, total: Int64, s: seq<Claim>, k: nat, theta: int)
    requires total != 0
  {
    AboveCount(amount, total, s, theta) < k <= AboveCount(amount, total, s, theta) + |Filter(OnClaim(Eq(theta), amount, total), s)|
  }

  lemma {:induction false} TurnedLength(tied: Claim -> bool, s: seq<Claim>, offset: nat)
    requires offset <= |s|
    ensures |Turned(tied, s, offset)| == |Filter(tied, s)|
  {
    assert s == s[..offset] + s[offset..];
    FilterAppend(tied, s[..offset], s[offset..]);
  }

  /** The owners of the first `k` ranks: everyone above the cutoff, and the first of the tied. */
  lemma {:induction false} BonusOwners(amount: Int64, total: Int64, s: seq<Claim>, offset: nat, k: nat, theta: int)
    requires total != 0 && offset < |s| && k <= |s| && Cutoff(amount, total, s, k, theta)
    ensures var c := k - AboveCount(amount, total, s, theta);
            && c <= |Turned(OnClaim(Eq(theta), amount, total), s, offset)|
            && multiset(Map(OwnerAt(Owners(s)), Ranking(amount, Shares(s), total, offset)[..k]))
               == multiset(Owners(Filter(OnClaim(Gt(theta), amount, total), s))) + multiset(Turned(OnClaim(Eq(theta), amount, total), s, offset)[..c])
  {
    var r, owner := Ranking(amount, Shares(s), total, offset), OwnerAt(Owners(s));
    RankingBlocks(amount, Shares(s), total, offset, theta);
    RankedAbove(amount, total, s, offset, theta);
    RankedTies(amount, total, s, offset, theta);
    TurnedLength(OnClaim(Eq(theta), amount, total), s, offset);
    hide Ranking;
    hide Filter;
    hide Turned;
    hide OwnerAt;
    hide OnEntry;
    hide OnClaim;
    hide Owners;
    hide AboveCount;
    var above, tied := Filter(OnEntry(Gt(theta)), r), Filter(OnEntry(Eq(theta)), r);
    assert |above| <= k <= |above| + |tied|;
    hide *;
    PrefixOfBlocks(owner, r, above, tied, Filter(OnEntry(Lt(theta)), r), k);
  }

  lemma PrefixOfBlocks<A(!new), B(!new)>(f: A -> B, s: seq<A>, x: seq<A>, y: seq<A>, z: seq<A>, k: nat)
    requires s == x + y + z && |x| <= k <= |x| + |y|
    ensures multiset(Map(f, s[..k])) == multiset(Map(f, x)) + multiset(Map(f, y)[..k - |x|])
  {
    assert s[..k] == x + y[..k - |x|];
    MapAppend(f, x, y[..k - |x|]);
    assert Map(f, y[..k - |x|]) == Map(f, y)[..k - |x|];
  }

  // ----- what an owner gets in all

  /** Index, owner, and one unit for each bonus. */
  function Unit(owners: seq<int>, bonus: set<int>): IdxRem -> Item<int> {
    (e: IdxRem) => Item(OwnerAt(owners)(e), if e.idx in bonus then 1 else 0)
  }

  function Units(n: nat, bonus: set<int>): (r: seq<int>)
    ensures |r| == n
  {
    seq(n, i requires 0 <= i < n => if i in bonus then 1 else 0)
  }

  /** Units handed to an owner: one for each of the owner's claims among the first `k` ranks. */
  lemma {:induction false} UnitsTotal(ranking: seq<IdxRem>, entries: seq<IdxRem>, owners: seq<int>, bonus: set<int>, k: nat, u: int)
    requires multiset(ranking) == multiset(entries) && |entries| == |owners| && k <= |ranking|
    requires forall i | 0 <= i < |entries| :: entries[i].idx == i
    requires forall p | 0 <= p < |ranking| :: ranking[p].idx in bonus <==> p < k
    ensures Total(RowItems(owners, Units(|owners|, bonus)), u) == multiset(Map(OwnerAt(owners), ranking[..k]))[u]
  {
    var g := Unit(owners, bonus);
    var rows := RowItems(owners, Units(|owners|, bonus));
    forall i | 0 <= i < |entries|
      ensures Map(g, entries)[i] == rows[i]
    {
      assert OwnerAt(owners)(entries[i]) == owners[i];
      assert g(entries[i]) == Item(owners[i], Units(|owners|, bonus)[i]);
    }
    assert Map(g, entries) == rows;
    MapMultiset(g, ranking, entries);
    TotalMultiset(Map(g, ranking), Map(g, entries), u);
    assert ranking == ranking[..k] + ranking[k..];
    MapAppend(g, ranking[..k], ranking[k..]);
    TotalAppend(Map(g, ranking[..k]), Map(g, ranking[k..]), u);
    OnesTotal(Map(g, ranking[..k]), Map(OwnerAt(owners), ranking[..k]), u);
    ZerosTotal(Map(g, ranking[k..]), u);
  }

  lemma RankedFirst(amount: Int64, total: Int64, s: seq<Claim>, offset: nat)
    requires total != 0 && offset < |s|
    ensures var r, k := Ranking(amount, Shares(s), total, offset), Handed(amount, Shares(s), total);
            && 0 <= k <= |r| == |s| && multiset(r) == multiset(EntriesOf(amount, total, s))
            && forall p | 0 <= p < |r| :: r[p].idx in Bonus(amount, Shares(s), total, offset) <==> p < k
  {
    RankingIsPermutation(amount, Shares(s), total, offset);
    RankingIsSorted(amount, Shares(s), total, offset);
    var r := Ranking(amount, Shares(s), total, offset);
    assert multiset(r) == multiset(EntriesOf(amount, total, s));
    hide Leftover;
    hide Remainder;
    hide Ranking;
    FirstOfSize(r, Remainders(amount, Shares(s), total), offset, Handed(amount, Shares(s), total));
  }

  /** An owner gets the quotients of all the owner's claims, and one unit for each of them among
      the first ranks. */
  lemma {:induction false} OwnerTotal(amount: Int64, total: Int64, s: seq<Claim>, offset: nat, u: int)
    requires total != 0 && offset < |s|
    requires total >= 2 || total <= -2 || Handed(amount, Shares(s), total) == 0
    ensures 0 <= Handed(amount, Shares(s), total) <= |Ranking(amount, Shares(s), total, offset)|
    ensures Total(RowItems(Owners(s), Apportioned(amount, Shares(s), total, offset)), u)
         == Total(RowItems(Owners(s), Bases(amount, Shares(s), total)), u)
            + multiset(Map(OwnerAt(Owners(s)), Ranking(amount, Shares(s), total, offset)[..Handed(amount, Shares(s), total)]))[u]
  {
    var bonus := Bonus(amount, Shares(s), total, offset);
    RankedFirst(amount, total, s, offset);
    forall i | 0 <= i < |s|
      ensures Apportioned(amount, Shares(s), total, offset)[i] == Bases(amount, Shares(s), total)[i] + Units(|s|, bonus)[i]
    {
      PartAt(amount, Shares(s), total, offset, i);
    }
    hide Apportioned;
    hide Bases;
    hide Bonus;
    hide Ranking;
    hide Handed;
    hide Units;
    hide Total;
    RowsAdd(Owners(s), Apportioned(amount, Shares(s), total, offset), Bases(amount, Shares(s), total), Units(|s|, bonus), u);
    UnitsTotal(Ranking(amount, Shares(s), total, offset), EntriesOf(amount, total, s), Owners(s), bonus,
               Handed(amount, Shares(s), total), u);
  }
}
