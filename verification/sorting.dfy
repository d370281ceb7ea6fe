/** Sorting with a caller-supplied comparator, the way the program uses Go's `sort.Slice`:
    the result is ordered and a permutation of the input, and where two entries tie nothing
    says which comes first. Callers that need one particular result show that their
    comparator never ties (`NeverTies`) and use `SortedUnique`. */
module Sorting {

  /** What `sort.Slice` asks of its comparator, on the elements of `s`. */
  ghost predicate StrictWeakOrder<T(!new)>(s: seq<T>, less: (T, T) -> bool) {
    && (forall x | x in s :: !less(x, x))
    && (forall x, y, z | x in s && y in s && z in s :: less(x, y) && less(y, z) ==> less(x, z))
    && (forall x, y, z | x in s && y in s && z in s :: less(x, y) ==> less(x, z) || less(z, y))
  }

  /** No two different elements of `s` tie. */
  ghost predicate NeverTies<T(!new)>(s: seq<T>, less: (T, T) -> bool) {
    forall x, y | x in s && y in s :: x != y ==> less(x, y) || less(y, x)
  }

  ghost predicate Sorted<T(!new)>(s: seq<T>, less: (T, T) -> bool) {
    forall i, j | 0 <= i < j < |s| :: !less(s[j], s[i])
  }

  function Insert<T(!new)>(x: T, s: seq<T>, less: (T, T) -> bool): (r: seq<T>)
    ensures multiset(r) == multiset(s) + multiset{x}
  {
    if s == [] then [x]
    else if less(s[0], x) then
      assert s == [s[0]] + s[1..];
      [s[0]] + Insert(x, s[1..], less)
    else [x] + s
  }

  /** The sorted arrangement of `s`; the only one when the comparator never ties on `s`. */
  function SortBy<T(!new)>(s: seq<T>, less: (T, T) -> bool): (r: seq<T>)
    ensures multiset(r) == multiset(s)
    ensures |r| == |s|
  {
    if s == [] then []
    else
      assert s == [s[0]] + s[1..];
      var r := Insert(s[0], SortBy(s[1..], less), less);
      assert |multiset(r)| == |multiset(s)|;
      r
  }

  lemma MembersAgree<T(!new)>(s: seq<T>, t: seq<T>)
    requires multiset(s) == multiset(t)
    ensures forall x :: x in s <==> x in t
    ensures |s| == |t|
  {
    forall x
      ensures x in s <==> x in t
    {
      assert x in s <==> x in multiset(s);
      assert x in t <==> x in multiset(t);
    }
    assert |multiset(s)| == |s| && |multiset(t)| == |t|;
  }

  lemma OccursOnce<T(!new)>(s: seq<T>, x: T)
    requires forall i, j | 0 <= i < j < |s| :: s[i] != s[j]
    ensures multiset(s)[x] <= 1
  {
    if k :| 0 <= k < |s| && s[k] == x {
      assert s == s[..k] + [x] + s[k + 1..];
      assert x !in s[..k] && x !in s[k + 1..];
    }
  }

  lemma OccursTwice<T(!new)>(s: seq<T>, i: nat, j: nat)
    requires i < j < |s| && s[i] == s[j]
    ensures multiset(s)[s[i]] >= 2
  {
    assert s == s[..i] + [s[i]] + s[i + 1..j] + [s[j]] + s[j + 1..];
  }

  lemma PermutationKeepsDistinct<T(!new)>(s: seq<T>, t: seq<T>)
    requires multiset(s) == multiset(t)
    requires forall i, j | 0 <= i < j < |s| :: s[i] != s[j]
    ensures forall i, j | 0 <= i < j < |t| :: t[i] != t[j]
  {
    forall i, j | 0 <= i < j < |t| && t[i] == t[j]
      ensures false
    {
      OccursTwice(t, i, j);
      OccursOnce(s, t[i]);
    }
  }

  function Map<A, B>(f: A -> B, s: seq<A>): (r: seq<B>)
    ensures |r| == |s|
    ensures forall i | 0 <= i < |s| :: r[i] == f(s[i])
  {
    seq(|s|, i requires 0 <= i < |s| => f(s[i]))
  }

  lemma MapAppend<A(!new), B(!new)>(f: A -> B, s: seq<A>, t: seq<A>)
    ensures Map(f, s + t) == Map(f, s) + Map(f, t)
  {
  }

  lemma SplitAt<T(!new)>(s: seq<T>, j: nat)
    requires j < |s|
    ensures s == s[..j] + [s[j]] + s[j + 1..]
    ensures multiset(s[..j] + s[j + 1..]) == multiset(s) - multiset{s[j]}
  {
    assert s == s[..j] + [s[j]] + s[j + 1..];
  }

  /** Two orders of the same elements, without the first element of one. */
  lemma SameWithout<T(!new)>(s: seq<T>, t: seq<T>) returns (j: nat)
    requires multiset(s) == multiset(t) && s != []
    ensures j < |t| && t[j] == s[0] && multiset(s[1..]) == multiset(t[..j] + t[j + 1..])
    ensures s[..0] + s[1..] == s[1..]
  {
    MembersAgree(s, t);
    assert s[0] in t;
    j :| 0 <= j < |t| && t[j] == s[0];
    SplitAt(t, j);
    assert s == [s[0]] + s[1..];
  }

  lemma MapWithout<A(!new), B(!new)>(f: A -> B, s: seq<A>, j: nat)
    requires j < |s|
    ensures multiset(Map(f, s)) == multiset(Map(f, s[..j] + s[j + 1..])) + multiset{f(s[j])}
  {
    SplitAt(s, j);
    MapAppend(f, s[..j] + [s[j]], s[j + 1..]);
    MapAppend(f, s[..j], [s[j]]);
    MapAppend(f, s[..j], s[j + 1..]);
    assert Map(f, [s[j]]) == [f(s[j])];
  }

  /** Applying a function elementwise respects permutation. */
  lemma {:induction false} MapMultiset<A(!new), B(!new)>(f: A -> B, s: seq<A>, t: seq<A>)
    requires multiset(s) == multiset(t)
    ensures multiset(Map(f, s)) == multiset(Map(f, t))
    decreases |s|
  {
    MembersAgree(s, t);
    if s == [] {
      assert Map(f, s) == Map(f, t);
    } else {
      assert s[0] in t;
      var j :| 0 <= j < |t| && t[j] == s[0];
      SplitAt(s, 0);
      SplitAt(t, j);
      MapMultiset(f, s[..0] + s[1..], t[..j] + t[j + 1..]);
      MapWithout(f, s, 0);
      MapWithout(f, t, j);
    }
  }

  lemma {:induction false} InsertSorted<T(!new)>(x: T, s: seq<T>, less: (T, T) -> bool)
    requires StrictWeakOrder([x] + s, less) && Sorted(s, less)
    ensures Sorted(Insert(x, s, less), less)
  {
    if s != [] && less(s[0], x) {
      assert forall y | y in [x] + s[1..] :: y in [x] + s;
      InsertSorted(x, s[1..], less);
      var tail := Insert(x, s[1..], less);
      forall y | y in tail
        ensures !less(y, s[0])
      {
        assert y in multiset(tail);
        assert y == x || y in s[1..];
        assert x in [x] + s && s[0] in [x] + s;
      }
    } else if s != [] {
      forall j | 0 <= j < |s|
        ensures !less(s[j], x)
      {
        assert x in [x] + s && s[0] in [x] + s && s[j] in [x] + s;
      }
    }
  }

  lemma {:induction false} SortBySorted<T(!new)>(s: seq<T>, less: (T, T) -> bool)
    requires StrictWeakOrder(s, less)
    ensures Sorted(SortBy(s, less), less)
  {
    if s != [] {
      var tail := SortBy(s[1..], less);
      SortBySorted(s[1..], less);
      MembersAgree(tail, s[1..]);
      forall y | y in [s[0]] + tail
        ensures y in s
      {
        assert y == s[0] || y in tail;
        assert y == s[0] || y in s[1..];
      }
      InsertSorted(s[0], tail, less);
    }
  }

  lemma TailMultiset<T(!new)>(s: seq<T>)
    requires s != []
    ensures multiset(s[1..]) == multiset(s) - multiset{s[0]}
  {
    assert s == [s[0]] + s[1..];
  }

  lemma HeadsAgree<T(!new)>(s: seq<T>, t: seq<T>, less: (T, T) -> bool)
    requires s != [] && multiset(s) == multiset(t)
    requires Sorted(s, less) && Sorted(t, less) && NeverTies(s, less)
    ensures t != [] && s[0] == t[0]
  {
    MembersAgree(s, t);
    assert s[0] in t && t[0] in s;
    var j :| 0 <= j < |t| && t[j] == s[0];
    var i :| 0 <= i < |s| && s[i] == t[0];
    assert j == 0 || !less(t[j], t[0]);
    assert i == 0 || !less(s[i], s[0]);
  }

  /** Under a comparator that never ties, a multiset of entries has one sorted arrangement. */
  lemma {:induction false} SortedUnique<T(!new)>(s: seq<T>, t: seq<T>, less: (T, T) -> bool)
    requires multiset(s) == multiset(t)
    requires Sorted(s, less) && Sorted(t, less) && NeverTies(s, less)
    ensures s == t
  {
    if s == [] {
      assert multiset(t) == multiset{};
    } else {
      HeadsAgree(s, t, less);
      assert s == [s[0]] + s[1..] && t == [t[0]] + t[1..];
      TailMultiset(s);
      TailMultiset(t);
      assert forall x | x in s[1..] :: x in s;
      SortedUnique(s[1..], t[1..], less);
    }
  }

  lemma OrderCarriesOver<T(!new)>(s: seq<T>, t: seq<T>, less: (T, T) -> bool)
    requires multiset(s) == multiset(t)
    ensures StrictWeakOrder(s, less) <==> StrictWeakOrder(t, less)
    ensures NeverTies(s, less) <==> NeverTies(t, less)
  {
    MembersAgree(s, t);
  }

  /** Sorting forgets the order its input came in. */
  lemma {:induction false} SortByIgnoresOrder<T(!new)>(s: seq<T>, t: seq<T>, less: (T, T) -> bool)
    requires multiset(s) == multiset(t)
    requires StrictWeakOrder(s, less) && NeverTies(s, less)
    ensures SortBy(s, less) == SortBy(t, less)
  {
    OrderCarriesOver(s, t, less);
    SortBySorted(s, less);
    SortBySorted(t, less);
    OrderCarriesOver(s, SortBy(s, less), less);
    SortedUnique(SortBy(s, less), SortBy(t, less), less);
  }

  lemma SwapKeepsMultiset<T(!new)>(s: seq<T>, i: nat, j: nat)
    requires i < |s| && j < |s|
    ensures multiset(s[i := s[j]][j := s[i]]) == multiset(s)
  {
  }

  ghost predicate SortedBelow<T(!new)>(s: seq<T>, n: nat, hole: nat, less: (T, T) -> bool)
    requires n <= |s|
  {
    forall i, j | 0 <= i < j < n && j != hole :: !less(s[j], s[i])
  }

  lemma SwapDownStep<T(!new)>(s: seq<T>, n: nat, j: nat, less: (T, T) -> bool)
    requires 0 < j < n <= |s| && StrictWeakOrder(s, less)
    requires SortedBelow(s, n, j, less) && less(s[j], s[j - 1])
    requires forall k | j < k < n :: !less(s[k], s[j])
    ensures var t := s[j := s[j - 1]][j - 1 := s[j]];
            SortedBelow(t, n, j - 1, less) && forall k | j - 1 < k < n :: !less(t[k], t[j - 1])
  {
    var t := s[j := s[j - 1]][j - 1 := s[j]];
    assert s[j] in s && s[j - 1] in s;
    forall a, b | 0 <= a < b < n && b != j - 1
      ensures !less(t[b], t[a])
    {
      if b == j && a == j - 1 {
        assert t[b] == s[j - 1] && t[a] == s[j];
      } else if a == j - 1 {
        assert t[b] == s[b] && t[a] == s[j];
      } else if a == j {
        assert t[b] == s[b] && t[a] == s[j - 1];
      } else if b == j {
        assert t[b] == s[j - 1] && t[a] == s[a];
      }
    }
  }

  lemma SettledIsSorted<T(!new)>(s: seq<T>, n: nat, j: nat, less: (T, T) -> bool)
    requires j < n <= |s| && StrictWeakOrder(s, less)
    requires SortedBelow(s, n, j, less)
    requires j > 0 ==> !less(s[j], s[j - 1])
    ensures forall a, b | 0 <= a < b < n :: !less(s[b], s[a])
  {
    forall a, b | 0 <= a < b < n
      ensures !less(s[b], s[a])
    {
      if b == j && a != j - 1 {
        assert !less(s[j - 1], s[a]);
        assert s[j] in s && s[j - 1] in s && s[a] in s;
      }
    }
  }

  /** `sort.Slice`, in place. */
  method SortSlice<T(!new)>(a: array<T>, less: (T, T) -> bool)
    requires StrictWeakOrder(a[..], less)
    modifies a
    ensures Sorted(a[..], less)
    ensures multiset(a[..]) == multiset(old(a[..]))
  {
    for n := 0 to a.Length
      invariant multiset(a[..]) == multiset(old(a[..]))
      invariant SortedBelow(a[..], n, n, less)
    {
      var j := n;
      MembersAgree(a[..], old(a[..]));
      while j > 0 && less(a[j], a[j - 1])
        invariant 0 <= j <= n
        invariant multiset(a[..]) == multiset(old(a[..]))
        invariant SortedBelow(a[..], n + 1, j, less)
        invariant forall k | j < k < n + 1 :: !less(a[..][k], a[..][j])
      {
        ghost var s := a[..];
        MembersAgree(s, old(a[..]));
        SwapDownStep(s, n + 1, j, less);
        SwapKeepsMultiset(s, j, j - 1);
        a[j], a[j - 1] := a[j - 1], a[j];
        assert a[..] == s[j := s[j - 1]][j - 1 := s[j]];
        j := j - 1;
      }
      MembersAgree(a[..], old(a[..]));
      SettledIsSorted(a[..], n + 1, j, less);
    }
    assert a[..] == a[..a.Length];
  }
}
