/** Claims in order of their owners: how much the order of one owner's claims matters
    (internal/money/split.go after the sort of internal/expenses/handlers.go). */
module ApportionmentOrder {
  import opened Numbers
  import opened Sorting
  import opened Filtering
  import opened ApportionmentTies

  function ByOwner(): (Claim, Claim) -> bool { (a: Claim, b: Claim) => a.owner < b.owner }

  /** Two arrangements of the same claims, both in order of owners. */
  ghost predicate Rearranges(s: seq<Claim>, t: seq<Claim>) {
    multiset(s) == multiset(t) && Sorted(s, ByOwner()) && Sorted(t, ByOwner())
  }

  function Before(w: int): Claim -> bool { (c: Claim) => c.owner < w }
  function Of(w: int): Claim -> bool { (c: Claim) => c.owner == w }
  function After(w: int): Claim -> bool { (c: Claim) => c.owner > w }

  lemma SortedOwners(s: seq<Claim>, t: seq<Claim>)
    requires Rearranges(s, t)
    ensures Owners(s) == Owners(t)
  {
    var less := (x: int, y: int) => x < y;
    MapMultiset(OwnerOf, s, t);
    MembersAgree(s, t);
    forall i, j | 0 <= i < j < |s|
      ensures !less(Owners(s)[j], Owners(s)[i]) && !less(Owners(t)[j], Owners(t)[i])
    {
      assert !ByOwner()(s[j], s[i]) && !ByOwner()(t[j], t[i]);
    }
    SortedUnique(Owners(s), Owners(t), less);
  }

  lemma {:induction false} FilterRearranges(keep: Claim -> bool, s: seq<Claim>, t: seq<Claim>)
    requires Rearranges(s, t)
    ensures Rearranges(Filter(keep, s), Filter(keep, t)) && |Filter(keep, s)| == |Filter(keep, t)|
  {
    FilterMultiset(keep, s, t);
    FilterSorted(keep, s, ByOwner());
    FilterSorted(keep, t, ByOwner());
    MembersAgree(Filter(keep, s), Filter(keep, t));
  }

  // ----- the claims around one owner

  /** The claims come in three runs: owners before `w`, `w`, owners after. */
  lemma {:induction false} Runs(s: seq<Claim>, w: int)
    requires Sorted(s, ByOwner())
    ensures s == Filter(Before(w), s) + Filter(Of(w), s) + Filter(After(w), s)
  {
    forall i, j | 0 <= i < j < |s|
      ensures s[i].owner <= s[j].owner
    {
      assert !ByOwner()(s[j], s[i]);
    }
    ThreeClasses(s, Before(w), Of(w), After(w));
  }

  /** Position `offset` lies in the run of its own owner. */
  lemma {:induction false} OffsetInRun(s: seq<Claim>, offset: nat)
    requires Sorted(s, ByOwner()) && offset < |s|
    ensures var w := s[offset].owner;
            |Filter(Before(w), s)| <= offset < |Filter(Before(w), s)| + |Filter(Of(w), s)|
  {
    var w := s[offset].owner;
    Runs(s, w);
    var before, own, after := Filter(Before(w), s), Filter(Of(w), s), Filter(After(w), s);
    FilterKept(Before(w), s);
    FilterKept(After(w), s);
    assert forall i | 0 <= i < |before| :: before[i].owner < w;
    assert forall i | 0 <= i < |after| :: after[i].owner > w;
    hide Filter;
    RunAt(before, own, after, s, offset);
  }

  lemma RunAt(before: seq<Claim>, own: seq<Claim>, after: seq<Claim>, s: seq<Claim>, offset: nat)
    requires s == before + own + after && offset < |s|
    requires forall i | 0 <= i < |before| :: before[i].owner < s[offset].owner
    requires forall i | 0 <= i < |after| :: after[i].owner > s[offset].owner
    ensures |before| <= offset < |before| + |own|
  {
    ConcatAt(before, own, after, offset);
  }

  function Repeat(w: int, n: nat): (r: seq<int>)
    ensures |r| == n
  {
    seq(n, _ => w)
  }

  lemma {:induction false} RepeatCount(w: int, n: nat, v: int)
    ensures multiset(Repeat(w, n))[v] == if v == w then n else 0
  {
    if n > 0 {
      RepeatCount(w, n - 1, v);
      assert Repeat(w, n) == Repeat(w, n - 1) + [w];
    }
  }

  lemma {:induction false} OwnRun(x: seq<Claim>, keep: Claim -> bool, w: int)
    requires forall c | c in x :: c.owner == w
    ensures Owners(Filter(keep, x)) == Repeat(w, |Filter(keep, x)|)
  {
    FilterMembers(keep, x);
    var kept := Filter(keep, x);
    hide Filter;
    forall i | 0 <= i < |kept|
      ensures Owners(kept)[i] == w
    {
      assert kept[i] in kept;
    }
  }

  /** Owners of the tied claims of everyone but `w`, those after `w` first. */
  function Rest(tied: Claim -> bool, s: seq<Claim>, w: int): seq<int> {
    Owners(Filter(tied, Filter(After(w), s))) + Owners(Filter(tied, Filter(Before(w), s)))
  }

  /** How many tied claims `w` has, and how many of them at or after `offset`. */
  function OwnTied(tied: Claim -> bool, s: seq<Claim>, w: int): nat { |Filter(tied, Filter(Of(w), s))| }

  function Ahead(tied: Claim -> bool, s: seq<Claim>, offset: nat, w: int): (r: nat)
    requires |Filter(Before(w), s)| <= offset <= |Filter(Before(w), s)| + |Filter(Of(w), s)|
  {
    |Filter(tied, Filter(Of(w), s)[offset - |Filter(Before(w), s)|..])|
  }

  lemma RestWithout(tied: Claim -> bool, s: seq<Claim>, w: int)
    ensures w !in Rest(tied, s, w)
  {
    var x, y := Filter(tied, Filter(After(w), s)), Filter(tied, Filter(Before(w), s));
    FilterMembers(After(w), s);
    FilterMembers(Before(w), s);
    FilterKept(tied, Filter(After(w), s));
    FilterKept(tied, Filter(Before(w), s));
    assert forall c | c in Filter(After(w), s) :: After(w)(c);
    assert forall c | c in Filter(Before(w), s) :: Before(w)(c);
    hide Filter;
    assert forall i | 0 <= i < |x| :: x[i].owner > w;
    assert forall i | 0 <= i < |y| :: y[i].owner < w;
  }

  /** From `offset` round: some of `w`, everyone else, the rest of `w`. */
  lemma {:induction false} TurnedLayout(tied: Claim -> bool, s: seq<Claim>, offset: nat)
    requires Sorted(s, ByOwner()) && offset < |s|
    ensures var w := s[offset].owner;
            && |Filter(Before(w), s)| <= offset < |Filter(Before(w), s)| + |Filter(Of(w), s)|
            && Ahead(tied, s, offset, w) <= OwnTied(tied, s, w)
            && Turned(tied, s, offset) == Repeat(w, Ahead(tied, s, offset, w)) + Rest(tied, s, w)
                                          + Repeat(w, OwnTied(tied, s, w) - Ahead(tied, s, offset, w))
  {
    var w := s[offset].owner;
    RunFacts(s, offset, w);
    assert Ahead(tied, s, offset, w) == |Filter(tied, Filter(Of(w), s)[offset - |Filter(Before(w), s)|..])|;
    assert OwnTied(tied, s, w) == |Filter(tied, Filter(Of(w), s))|;
    assert Rest(tied, s, w) == Owners(Filter(tied, Filter(After(w), s))) + Owners(Filter(tied, Filter(Before(w), s)));
    hide *;
    TurnedRuns(tied, s, Filter(Before(w), s), Filter(Of(w), s), Filter(After(w), s), offset, w);
  }

  lemma {:induction false} RunFacts(s: seq<Claim>, offset: nat, w: int)
    requires Sorted(s, ByOwner()) && offset < |s| && w == s[offset].owner
    ensures s == Filter(Before(w), s) + Filter(Of(w), s) + Filter(After(w), s)
    ensures |Filter(Before(w), s)| <= offset < |Filter(Before(w), s)| + |Filter(Of(w), s)|
    ensures forall i | 0 <= i < |Filter(Of(w), s)| :: Filter(Of(w), s)[i].owner == w
  {
    OffsetInRun(s, offset);
    Runs(s, w);
    FilterKept(Of(w), s);
    hide Filter;
  }

  lemma TurnedRuns(tied: Claim -> bool, s: seq<Claim>, before: seq<Claim>, own: seq<Claim>, after: seq<Claim>, offset: nat, w: int)
    requires s == before + own + after && |before| <= offset < |before| + |own|
    requires forall i | 0 <= i < |own| :: own[i].owner == w
    ensures var t, a := |Filter(tied, own)|, |Filter(tied, own[offset - |before|..])|;
            && a <= t
            && Turned(tied, s, offset)
               == Repeat(w, a) + (Owners(Filter(tied, after)) + Owners(Filter(tied, before))) + Repeat(w, t - a)
  {
    var b := offset - |before|;
    hide Filter;
    assert s[offset..] == own[b..] + after && s[..offset] == before + own[..b] && own == own[..b] + own[b..];
    FilterAppend(tied, own[b..], after);
    FilterAppend(tied, before, own[..b]);
    FilterAppend(tied, own[..b], own[b..]);
    OwnRun(own[b..], tied, w);
    OwnRun(own[..b], tied, w);
    hide Repeat;
    MapAppend(OwnerOf, Filter(tied, own[b..]), Filter(tied, after));
    MapAppend(OwnerOf, Filter(tied, before), Filter(tied, own[..b]));
  }

  // ----- counting a prefix

  /** Units `w` gets when the first `c` of these are served: w `a` times, `rest` others, w again. */
  function Served(a: nat, rest: nat, c: nat): nat {
    Min(a, c) + Max(0, c - a - rest)
  }

  /** The same for anyone. */
  function ServedTo(w: int, a: nat, rest: seq<int>, c: nat, v: int): nat {
    if v == w then Served(a, |rest|, c) else multiset(rest[..Min(|rest|, Max(0, c - a))])[v]
  }

  lemma PrefixCount(w: int, a: nat, rest: seq<int>, t: nat, c: nat, v: int)
    requires a <= t && c <= t + |rest| && w !in rest
    ensures multiset((Repeat(w, a) + rest + Repeat(w, t - a))[..c])[v] == ServedTo(w, a, rest, c, v)
  {
    var all := Repeat(w, a) + rest + Repeat(w, t - a);
    var m := Min(|rest|, Max(0, c - a));
    var x, y := Min(a, c), Max(0, c - a - |rest|);
    assert all[..c] == Repeat(w, x) + rest[..m] + Repeat(w, y);
    RepeatCount(w, x, v);
    RepeatCount(w, y, v);
    assert v == w ==> v !in rest[..m];
  }

  // ----- when the order matters

  /** Over all arrangements, the least and the greatest number of w's tied claims at or after the
      offset, when `before` of its claims lie before the offset and `after` do not. */
  function Least(t: nat, before: nat): nat { Max(0, t - before) }
  function Most(t: nat, after: nat): nat { Min(t, after) }

  /** Serving `c` of the tied gives everyone the same in every arrangement. */
  predicate Same(least: nat, most: nat, rest: nat, c: nat) {
    least == most || rest == 0 || c <= least || c >= most + rest
  }

  lemma ServedSame(w: int, a: nat, b: nat, least: nat, most: nat, rest: seq<int>, c: nat, v: int)
    requires least <= a <= most && least <= b <= most && Same(least, most, |rest|, c)
    ensures ServedTo(w, a, rest, c, v) == ServedTo(w, b, rest, c, v)
  {
  }

  lemma ServedDiffers(least: nat, most: nat, rest: nat, c: nat)
    requires least <= most && !Same(least, most, rest, c)
    ensures Served(least, rest, c) < Served(most, rest, c)
  {
  }

  /** The condition, read off one arrangement. */
  ghost predicate Unaffected(tied: Claim -> bool, s: seq<Claim>, offset: nat, c: nat)
    requires offset < |s|
  {
    var w := s[offset].owner;
    var first, own := |Filter(Before(w), s)|, |Filter(Of(w), s)|;
    var t := OwnTied(tied, s, w);
    first <= offset < first + own ==> Same(Least(t, offset - first), Most(t, first + own - offset), |Rest(tied, s, w)|, c)
  }

  lemma {:induction false} AheadWithin(tied: Claim -> bool, s: seq<Claim>, offset: nat, w: int)
    requires |Filter(Before(w), s)| <= offset < |Filter(Before(w), s)| + |Filter(Of(w), s)|
    ensures var b := offset - |Filter(Before(w), s)|;
            Least(OwnTied(tied, s, w), b) <= Ahead(tied, s, offset, w) <= Most(OwnTied(tied, s, w), |Filter(Of(w), s)| - b)
  {
    var own, b := Filter(Of(w), s), offset - |Filter(Before(w), s)|;
    assert own == own[..b] + own[b..];
    FilterAppend(tied, own[..b], own[b..]);
  }

  lemma {:induction false} SameRest(tied: Claim -> bool, s: seq<Claim>, t: seq<Claim>, w: int)
    requires Rearranges(s, t)
    ensures Rest(tied, s, w) == Rest(tied, t, w) && OwnTied(tied, s, w) == OwnTied(tied, t, w)
    ensures |Filter(Before(w), s)| == |Filter(Before(w), t)| && |Filter(Of(w), s)| == |Filter(Of(w), t)|
  {
    hide Filter;
    FilterRearranges(Before(w), s, t);
    FilterRearranges(Of(w), s, t);
    FilterRearranges(After(w), s, t);
    FilterRearranges(tied, Filter(Before(w), s), Filter(Before(w), t));
    FilterRearranges(tied, Filter(Of(w), s), Filter(Of(w), t));
    FilterRearranges(tied, Filter(After(w), s), Filter(After(w), t));
    SortedOwners(Filter(tied, Filter(Before(w), s)), Filter(tied, Filter(Before(w), t)));
    SortedOwners(Filter(tied, Filter(After(w), s)), Filter(tied, Filter(After(w), t)));
  }

  /** Units `v` gets from the first `c` tied claims. */
  function Gets(tied: Claim -> bool, s: seq<Claim>, offset: nat, c: nat, v: int): nat
    requires offset <= |s| && c <= |Turned(tied, s, offset)|
  {
    multiset(Turned(tied, s, offset)[..c])[v]
  }

  lemma {:induction false} TurnedCount(tied: Claim -> bool, s: seq<Claim>, offset: nat, c: nat, w: int, v: int)
    requires Sorted(s, ByOwner()) && offset < |s| && w == s[offset].owner && c <= |Turned(tied, s, offset)|
    ensures |Filter(Before(w), s)| <= offset < |Filter(Before(w), s)| + |Filter(Of(w), s)|
    ensures Gets(tied, s, offset, c, v) == ServedTo(w, Ahead(tied, s, offset, w), Rest(tied, s, w), c, v)
  {
    hide Filter;
    TurnedLayout(tied, s, offset);
    RestWithout(tied, s, w);
    hide Turned;
    hide Rest;
    hide ServedTo;
    PrefixCount(w, Ahead(tied, s, offset, w), Rest(tied, s, w), OwnTied(tied, s, w), c, v);
  }

  lemma TurnedSameLength(tied: Claim -> bool, s: seq<Claim>, t: seq<Claim>, offset: nat)
    requires Rearranges(s, t) && |s| == |t| && offset <= |s|
    ensures |Turned(tied, s, offset)| == |Turned(tied, t, offset)|
  {
    TurnedLength(tied, s, offset);
    TurnedLength(tied, t, offset);
    FilterRearranges(tied, s, t);
  }

  lemma SameOwnerAt(s: seq<Claim>, t: seq<Claim>, offset: nat)
    requires Rearranges(s, t) && offset < |s|
    ensures |s| == |t| && s[offset].owner == t[offset].owner && Sorted(s, ByOwner()) && Sorted(t, ByOwner())
  {
    SortedOwners(s, t);
    assert Owners(s)[offset] == Owners(t)[offset];
  }

  lemma UnaffectedMeans(tied: Claim -> bool, s: seq<Claim>, offset: nat, c: nat, w: int) returns (least: nat, most: nat)
    requires Sorted(s, ByOwner()) && offset < |s| && w == s[offset].owner && Unaffected(tied, s, offset, c)
    ensures |Filter(Before(w), s)| <= offset < |Filter(Before(w), s)| + |Filter(Of(w), s)|
    ensures least == Least(OwnTied(tied, s, w), offset - |Filter(Before(w), s)|)
    ensures most == Most(OwnTied(tied, s, w), |Filter(Of(w), s)| - (offset - |Filter(Before(w), s)|))
    ensures Same(least, most, |Rest(tied, s, w)|, c)
  {
    hide Filter;
    OffsetInRun(s, offset);
    var first, own := |Filter(Before(w), s)|, |Filter(Of(w), s)|;
    least, most := Least(OwnTied(tied, s, w), offset - first), Most(OwnTied(tied, s, w), own - (offset - first));
    assert first + own - offset == own - (offset - first);
  }

  /** Both arrangements have as many of w's tied claims ahead as the bounds allow. */
  lemma AheadBetween(tied: Claim -> bool, s: seq<Claim>, t: seq<Claim>, offset: nat, c: nat, w: int) returns (least: nat, most: nat)
    requires Rearranges(s, t) && offset < |s| && w == s[offset].owner && Unaffected(tied, s, offset, c)
    ensures |Filter(Before(w), s)| <= offset < |Filter(Before(w), s)| + |Filter(Of(w), s)|
    ensures |Filter(Before(w), t)| <= offset < |Filter(Before(w), t)| + |Filter(Of(w), t)|
    ensures least <= Ahead(tied, s, offset, w) <= most && least <= Ahead(tied, t, offset, w) <= most
    ensures Same(least, most, |Rest(tied, s, w)|, c)
  {
    hide Filter;
    hide Rest;
    hide OwnTied;
    hide Ahead;
    hide Least;
    hide Most;
    hide Same;
    hide Unaffected;
    hide Sorted;
    SameOwnerAt(s, t, offset);
    SameRest(tied, s, t, w);
    hide Rearranges;
    least, most := UnaffectedMeans(tied, s, offset, c, w);
    AheadWithin(tied, s, offset, w);
    AheadWithin(tied, t, offset, w);
  }

  /** Under the condition every arrangement serves every owner alike. */
  lemma UnaffectedCounts(tied: Claim -> bool, s: seq<Claim>, t: seq<Claim>, offset: nat, c: nat, v: int)
    requires Rearranges(s, t) && offset < |s| && |s| == |t| && c <= |Turned(tied, s, offset)|
    requires Unaffected(tied, s, offset, c)
    ensures c <= |Turned(tied, t, offset)|
    ensures Gets(tied, s, offset, c, v) == Gets(tied, t, offset, c, v)
  {
    var w := s[offset].owner;
    hide *;
    SameOwnerAt(s, t, offset);
    TurnedSameLength(tied, s, t, offset);
    SameRest(tied, s, t, w);
    var least, most := AheadBetween(tied, s, t, offset, c, w);
    TurnedCount(tied, s, offset, c, w, v);
    TurnedCount(tied, t, offset, c, w, v);
    ServedSame(w, Ahead(tied, s, offset, w), Ahead(tied, t, offset, w), least, most, Rest(tied, s, w), c, v);
  }

  // ----- the two extreme arrangements

  function Own(tied: Claim -> bool, s: seq<Claim>, w: int, first: bool): seq<Claim> {
    var own := Filter(Of(w), s);
    if first then Filter(tied, own) + Filter(Not(tied), own) else Filter(Not(tied), own) + Filter(tied, own)
  }

  /** The same claims, w's with the tied ones first or last. */
  function Arranged(tied: Claim -> bool, s: seq<Claim>, w: int, first: bool): seq<Claim> {
    Filter(Before(w), s) + Own(tied, s, w, first) + Filter(After(w), s)
  }

  lemma {:induction false} OwnIs(tied: Claim -> bool, s: seq<Claim>, w: int, first: bool)
    ensures multiset(Own(tied, s, w, first)) == multiset(Filter(Of(w), s)) && |Own(tied, s, w, first)| == |Filter(Of(w), s)|
    ensures forall c | c in Own(tied, s, w, first) :: c.owner == w
  {
    var own := Filter(Of(w), s);
    FilterSplit(tied, own);
    FilterMembers(Of(w), s);
    assert forall c | c in own :: Of(w)(c);
    FilterMembers(tied, own);
    FilterMembers(Not(tied), own);
    hide Filter;
  }

  lemma ArrangedSorted(x: seq<Claim>, y: seq<Claim>, z: seq<Claim>, w: int)
    requires Sorted(x, ByOwner()) && Sorted(z, ByOwner())
    requires forall i | 0 <= i < |x| :: x[i].owner < w
    requires forall i | 0 <= i < |y| :: y[i].owner == w
    requires forall i | 0 <= i < |z| :: z[i].owner > w
    ensures Sorted(x + y + z, ByOwner())
  {
    forall i, j | 0 <= i < j < |x + y + z|
      ensures !ByOwner()((x + y + z)[j], (x + y + z)[i])
    {
      ConcatAt(x, y, z, i);
      ConcatAt(x, y, z, j);
      assert j < |x| ==> !ByOwner()(x[j], x[i]);
      assert i >= |x| + |y| ==> !ByOwner()(z[j - |x| - |y|], z[i - |x| - |y|]);
    }
  }

  lemma {:induction false} SideOwners(s: seq<Claim>, w: int)
    ensures forall i | 0 <= i < |Filter(Before(w), s)| :: Filter(Before(w), s)[i].owner < w
    ensures forall i | 0 <= i < |Filter(After(w), s)| :: Filter(After(w), s)[i].owner > w
  {
    FilterKept(Before(w), s);
    FilterKept(After(w), s);
    hide Filter;
  }

  lemma ArrangedIs(tied: Claim -> bool, s: seq<Claim>, w: int, first: bool)
    requires Sorted(s, ByOwner())
    ensures Rearranges(s, Arranged(tied, s, w, first)) && |Arranged(tied, s, w, first)| == |s|
  {
    Runs(s, w);
    OwnIs(tied, s, w, first);
    SideOwners(s, w);
    FilterSorted(Before(w), s, ByOwner());
    FilterSorted(After(w), s, ByOwner());
    var x, y, z := Filter(Before(w), s), Own(tied, s, w, first), Filter(After(w), s);
    assert forall i | 0 <= i < |y| :: y[i] in y && y[i].owner == w;
    hide Filter;
    hide Own;
    ArrangedSorted(x, y, z, w);
    MembersAgree(s, x + y + z);
  }

  lemma {:induction false} ArrangedRuns(tied: Claim -> bool, s: seq<Claim>, w: int, first: bool)
    ensures Filter(Before(w), Arranged(tied, s, w, first)) == Filter(Before(w), s)
    ensures Filter(Of(w), Arranged(tied, s, w, first)) == Own(tied, s, w, first)
  {
    var x, y, z := Filter(Before(w), s), Own(tied, s, w, first), Filter(After(w), s);
    OwnIs(tied, s, w, first);
    FilterMembers(Before(w), s);
    FilterMembers(After(w), s);
    hide Own;
    hide Filter;
    assert forall c | c in x :: c.owner < w by { assert forall c | c in x :: Before(w)(c); }
    assert forall c | c in z :: c.owner > w by { assert forall c | c in z :: After(w)(c); }
    FilterFirst(Before(w), x, y, z);
    FilterMiddle(Of(w), x, y, z);
  }

  /** Tied ones in the part of a run from `b` on, when all tied come first or last. */
  lemma PartTied(tied: Claim -> bool, t: seq<Claim>, n: seq<Claim>, first: bool, b: nat)
    requires forall c | c in t :: tied(c)
    requires forall c | c in n :: !tied(c)
    requires b <= |t| + |n|
    ensures |Filter(tied, (if first then t + n else n + t)[b..])| == if first then Max(0, |t| - b) else Min(|t|, |t| + |n| - b)
  {
    var x, y := if first then t else n, if first then n else t;
    var k := Min(b, |x|);
    hide Filter;
    assert (x + y)[b..] == x[k..] + y[b - k..];
    FilterAppend(tied, x[k..], y[b - k..]);
    assert forall c | c in x[k..] :: c in x;
    assert forall c | c in y[b - k..] :: c in y;
    if first {
      FilterAll(tied, x[k..]);
      FilterNone(tied, y[b - k..]);
    } else {
      FilterNone(tied, x[k..]);
      FilterAll(tied, y[b - k..]);
    }
  }

  lemma {:induction false} OwnTail(tied: Claim -> bool, s: seq<Claim>, w: int, first: bool, b: nat)
    requires b <= |Filter(Of(w), s)|
    ensures |Own(tied, s, w, first)| == |Filter(Of(w), s)|
    ensures |Filter(tied, Own(tied, s, w, first)[b..])|
         == if first then Least(OwnTied(tied, s, w), b) else Most(OwnTied(tied, s, w), |Filter(Of(w), s)| - b)
  {
    var own := Filter(Of(w), s);
    var t, n := Filter(tied, own), Filter(Not(tied), own);
    FilterSplit(tied, own);
    FilterMembers(tied, own);
    FilterMembers(Not(tied), own);
    hide Filter;
    assert forall c | c in n :: !tied(c) by { assert forall c | c in n :: Not(tied)(c); }
    PartTied(tied, t, n, first, b);
  }

  lemma {:induction false} ArrangedAhead(tied: Claim -> bool, s: seq<Claim>, offset: nat, w: int, first: bool)
    requires |Filter(Before(w), s)| <= offset < |Filter(Before(w), s)| + |Filter(Of(w), s)|
    ensures var r, b, t := Arranged(tied, s, w, first), offset - |Filter(Before(w), s)|, OwnTied(tied, s, w);
            && |Filter(Before(w), r)| <= offset < |Filter(Before(w), r)| + |Filter(Of(w), r)|
            && Ahead(tied, r, offset, w) == if first then Least(t, b) else Most(t, |Filter(Of(w), s)| - b)
  {
    hide Filter;
    hide Arranged;
    hide Own;
    hide OwnTied;
    hide Least;
    hide Most;
    ArrangedRuns(tied, s, w, first);
    OwnTail(tied, s, w, first, offset - |Filter(Before(w), s)|);
  }

  lemma {:induction false} ArrangedCount(tied: Claim -> bool, s: seq<Claim>, r: seq<Claim>, offset: nat, c: nat, first: bool, w: int)
    requires offset < |s| && c <= |Turned(tied, s, offset)| && w == s[offset].owner
    requires r == Arranged(tied, s, w, first) && Rearranges(s, r) && |r| == |s|
    requires |Filter(Before(w), s)| <= offset < |Filter(Before(w), s)| + |Filter(Of(w), s)|
    ensures c <= |Turned(tied, r, offset)|
    ensures var b, t := offset - |Filter(Before(w), s)|, OwnTied(tied, s, w);
            Gets(tied, r, offset, c, w)
            == Served(if first then Least(t, b) else Most(t, |Filter(Of(w), s)| - b), |Rest(tied, s, w)|, c)
  {
    SortedOwners(s, r);
    assert Owners(s)[offset] == w && r[offset].owner == w && Sorted(r, ByOwner());
    var b, t := offset - |Filter(Before(w), s)|, OwnTied(tied, s, w);
    var a := if first then Least(t, b) else Most(t, |Filter(Of(w), s)| - b);
    assert ServedTo(w, a, Rest(tied, s, w), c, w) == Served(a, |Rest(tied, s, w)|, c);
    TurnedSameLength(tied, s, r, offset);
    hide *;
    ArrangedAhead(tied, s, offset, w, first);
    SameRest(tied, s, r, w);
    TurnedCount(tied, r, offset, c, w, w);
  }

  lemma Extremes(tied: Claim -> bool, s: seq<Claim>, offset: nat, c: nat, w: int) returns (least: nat, most: nat)
    requires Sorted(s, ByOwner()) && offset < |s| && w == s[offset].owner
    requires !Unaffected(tied, s, offset, c)
    ensures var first, own := |Filter(Before(w), s)|, |Filter(Of(w), s)|;
            && first <= offset < first + own
            && least == Least(OwnTied(tied, s, w), offset - first) && most == Most(OwnTied(tied, s, w), own - (offset - first))
    ensures Served(least, |Rest(tied, s, w)|, c) < Served(most, |Rest(tied, s, w)|, c)
  {
    hide Filter;
    OffsetInRun(s, offset);
    AheadWithin(tied, s, offset, w);
    var first, own := |Filter(Before(w), s)|, |Filter(Of(w), s)|;
    least, most := Least(OwnTied(tied, s, w), offset - first), Most(OwnTied(tied, s, w), own - (offset - first));
    assert first + own - offset == own - (offset - first);
    ServedDiffers(least, most, |Rest(tied, s, w)|, c);
  }

  /** Without the condition, the owner at the offset gets less when the tied claims of that owner
      come first than when they come last. */
  lemma AffectedDiffers(tied: Claim -> bool, s: seq<Claim>, offset: nat, c: nat, w: int)
    requires Sorted(s, ByOwner()) && offset < |s| && c <= |Turned(tied, s, offset)| && w == s[offset].owner
    requires !Unaffected(tied, s, offset, c)
    ensures var r, t := Arranged(tied, s, w, true), Arranged(tied, s, w, false);
            && Rearranges(s, r) && Rearranges(s, t) && |r| == |t| == |s|
            && c <= |Turned(tied, r, offset)| && c <= |Turned(tied, t, offset)|
            && Gets(tied, r, offset, c, w) < Gets(tied, t, offset, c, w)
  {
    hide *;
    var least, most := Extremes(tied, s, offset, c, w);
    ArrangedIs(tied, s, w, true);
    ArrangedIs(tied, s, w, false);
    ArrangedCount(tied, s, Arranged(tied, s, w, true), offset, c, true, w);
    ArrangedCount(tied, s, Arranged(tied, s, w, false), offset, c, false, w);
  }
}
