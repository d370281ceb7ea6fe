/** The elements of a sequence that pass a test, in their order. */
module Filtering {
  import opened Sorting

  function Filter<T>(keep: T -> bool, s: seq<T>): (r: seq<T>)
    ensures |r| <= |s|
  {
    if s == [] then []
    else Filter(keep, s[..|s| - 1]) + if keep(s[|s| - 1]) then [s[|s| - 1]] else []
  }

  lemma {:induction false} FilterMembers<T(!new)>(keep: T -> bool, s: seq<T>)
    ensures forall x :: x in Filter(keep, s) <==> x in s && keep(x)
  {
    if s != [] {
      FilterMembers(keep, s[..|s| - 1]);
      assert s == s[..|s| - 1] + [s[|s| - 1]];
    }
  }

  lemma {:induction false} FilterKept<T(!new)>(keep: T -> bool, s: seq<T>)
    ensures forall i | 0 <= i < |Filter(keep, s)| :: keep(Filter(keep, s)[i]) && Filter(keep, s)[i] in s
  {
    FilterMembers(keep, s);
    forall i | 0 <= i < |Filter(keep, s)|
      ensures keep(Filter(keep, s)[i]) && Filter(keep, s)[i] in s
    {
      assert Filter(keep, s)[i] in Filter(keep, s);
    }
  }

  lemma {:induction false} FilterAppend<T(!new)>(keep: T -> bool, s: seq<T>, t: seq<T>)
    ensures Filter(keep, s + t) == Filter(keep, s) + Filter(keep, t)
  {
    if t == [] {
      assert s + t == s;
    } else {
      assert (s + t)[..|s + t| - 1] == s + t[..|t| - 1];
      FilterAppend(keep, s, t[..|t| - 1]);
    }
  }

  lemma FilterOne<T(!new)>(keep: T -> bool, x: T)
    ensures Filter(keep, [x]) == if keep(x) then [x] else []
  {
    assert [x][..0] == [];
  }

  lemma {:induction false} FilterSnoc<T(!new)>(keep: T -> bool, s: seq<T>, x: T)
    ensures Filter(keep, s + [x]) == if keep(x) then Filter(keep, s) + [x] else Filter(keep, s)
  {
    FilterAppend(keep, s, [x]);
    FilterOne(keep, x);
    hide Filter;
  }

  lemma {:induction false} FilterAll<T(!new)>(keep: T -> bool, s: seq<T>)
    requires forall x | x in s :: keep(x)
    ensures Filter(keep, s) == s
  {
    if s != [] {
      FilterAll(keep, s[..|s| - 1]);
      assert s == s[..|s| - 1] + [s[|s| - 1]];
    }
  }

  lemma {:induction false} FilterNone<T(!new)>(keep: T -> bool, s: seq<T>)
    requires forall x | x in s :: !keep(x)
    ensures Filter(keep, s) == []
  {
    if s != [] { FilterNone(keep, s[..|s| - 1]); }
  }

  lemma {:induction false} FilterWithout<T(!new)>(keep: T -> bool, s: seq<T>, j: nat)
    requires j < |s|
    ensures multiset(Filter(keep, s)) == multiset(Filter(keep, s[..j] + s[j + 1..])) + multiset(Filter(keep, [s[j]]))
  {
    SplitAt(s, j);
    FilterAppend(keep, s[..j] + [s[j]], s[j + 1..]);
    FilterAppend(keep, s[..j], [s[j]]);
    FilterAppend(keep, s[..j], s[j + 1..]);
    hide Filter;
  }

  /** Which elements pass does not depend on their order. */
  lemma {:induction false} FilterMultiset<T(!new)>(keep: T -> bool, s: seq<T>, t: seq<T>)
    requires multiset(s) == multiset(t)
    ensures multiset(Filter(keep, s)) == multiset(Filter(keep, t))
    decreases |s|
  {
    if s == [] {
      MembersAgree(s, t);
    } else {
      hide Filter;
      var j := SameWithout(s, t);
      FilterMultiset(keep, s[1..], t[..j] + t[j + 1..]);
      FilterWithout(keep, s, 0);
      FilterWithout(keep, t, j);
    }
  }

  /** What passes stays in order. */
  lemma {:induction false} FilterSorted<T(!new)>(keep: T -> bool, s: seq<T>, less: (T, T) -> bool)
    requires Sorted(s, less)
    ensures Sorted(Filter(keep, s), less)
  {
    if s != [] {
      var n := |s| - 1;
      FilterSorted(keep, s[..n], less);
      FilterMembers(keep, s[..n]);
      var front := Filter(keep, s[..n]);
      forall i | 0 <= i < |front|
        ensures !less(s[n], front[i])
      {
        assert front[i] in s[..n];
      }
    }
  }

  ghost predicate OneClass<T(!new)>(s: seq<T>, low: T -> bool, mid: T -> bool, high: T -> bool) {
    forall i | 0 <= i < |s| ::
      (low(s[i]) || mid(s[i]) || high(s[i])) && !(low(s[i]) && mid(s[i])) && !(low(s[i]) && high(s[i])) && !(mid(s[i]) && high(s[i]))
  }

  ghost predicate InClassOrder<T(!new)>(s: seq<T>, low: T -> bool, mid: T -> bool, high: T -> bool) {
    forall i, j | 0 <= i < j < |s| :: (low(s[j]) ==> low(s[i])) && (mid(s[j]) ==> !high(s[i]))
  }

  lemma {:induction false} FilterNoneAt<T(!new)>(keep: T -> bool, s: seq<T>)
    requires forall i | 0 <= i < |s| :: !keep(s[i])
    ensures Filter(keep, s) == []
  {
    FilterNone(keep, s);
  }

  lemma LastClass<T(!new)>(s: seq<T>, low: T -> bool, mid: T -> bool, high: T -> bool)
    requires s != [] && OneClass(s, low, mid, high) && InClassOrder(s, low, mid, high)
    ensures var front, x := s[..|s| - 1], s[|s| - 1];
            && OneClass(front, low, mid, high) && InClassOrder(front, low, mid, high)
            && (low(x) ==> Filter(mid, front) == [] && Filter(high, front) == [] && !mid(x) && !high(x))
            && (mid(x) ==> Filter(high, front) == [] && !low(x) && !high(x))
            && (!low(x) && !mid(x) ==> high(x))
  {
    var front, x := s[..|s| - 1], s[|s| - 1];
    if low(x) {
      FilterNoneAt(mid, front);
      FilterNoneAt(high, front);
    } else if mid(x) {
      FilterNoneAt(high, front);
    }
  }

  /** Elements in order of their class are three filtered pieces in a row. */
  lemma {:induction false} ThreeClasses<T(!new)>(s: seq<T>, low: T -> bool, mid: T -> bool, high: T -> bool)
    requires OneClass(s, low, mid, high) && InClassOrder(s, low, mid, high)
    ensures s == Filter(low, s) + Filter(mid, s) + Filter(high, s)
  {
    if s != [] {
      var front, x := s[..|s| - 1], s[|s| - 1];
      LastClass(s, low, mid, high);
      hide OneClass;
      hide InClassOrder;
      hide Filter;
      ThreeClasses(front, low, mid, high);
      assert s == front + [x];
      FilterSnoc(low, front, x);
      FilterSnoc(mid, front, x);
      FilterSnoc(high, front, x);
    }
  }

  lemma {:induction false} MapFilterSnoc<A(!new), B(!new)>(f: A -> B, keep: A -> bool, s: seq<A>, x: A)
    ensures Map(f, Filter(keep, s + [x])) == Map(f, Filter(keep, s)) + if keep(x) then [f(x)] else []
  {
    FilterAppend(keep, s, [x]);
    FilterOne(keep, x);
    hide Filter;
    MapAppend(f, Filter(keep, s), Filter(keep, [x]));
    assert Map(f, Filter(keep, [x])) == if keep(x) then [f(x)] else [];
  }

  /** Two sequences that agree element by element, in the test and in the value, agree filtered. */
  lemma {:induction false} ParallelFilter<A(!new), B(!new), C(!new)>(f: A -> C, g: B -> C, keepA: A -> bool, keepB: B -> bool,
                                                                    s: seq<A>, t: seq<B>)
    requires |s| == |t| && forall i | 0 <= i < |s| :: keepA(s[i]) == keepB(t[i]) && f(s[i]) == g(t[i])
    ensures Map(f, Filter(keepA, s)) == Map(g, Filter(keepB, t))
    decreases |s|
  {
    if s != [] {
      var n := |s| - 1;
      hide Filter;
      ParallelFilter(f, g, keepA, keepB, s[..n], t[..n]);
      assert s == s[..n] + [s[n]] && t == t[..n] + [t[n]];
      MapFilterSnoc(f, keepA, s[..n], s[n]);
      MapFilterSnoc(g, keepB, t[..n], t[n]);
    }
  }

  lemma ConcatAt<T(!new)>(x: seq<T>, y: seq<T>, z: seq<T>, i: nat)
    requires i < |x| + |y| + |z|
    ensures (x + y + z)[i] == if i < |x| then x[i] else if i < |x| + |y| then y[i - |x|] else z[i - |x| - |y|]
  {
  }

  function Not<T>(keep: T -> bool): T -> bool { (x: T) => !keep(x) }

  lemma MultisetSnoc<T(!new)>(a: seq<T>, b: seq<T>, c: seq<T>, x: T)
    requires multiset(a) == multiset(b) + multiset(c)
    ensures multiset(a + [x]) == multiset(b + [x]) + multiset(c) == multiset(b) + multiset(c + [x])
  {
  }

  lemma {:induction false} FilterSplit<T(!new)>(keep: T -> bool, s: seq<T>)
    ensures multiset(s) == multiset(Filter(keep, s)) + multiset(Filter(Not(keep), s))
    ensures |s| == |Filter(keep, s)| + |Filter(Not(keep), s)|
  {
    if s != [] {
      var front, x := s[..|s| - 1], s[|s| - 1];
      hide Filter;
      FilterSplit(keep, front);
      assert s == front + [x];
      FilterSnoc(keep, front, x);
      FilterSnoc(Not(keep), front, x);
      MultisetSnoc(front, Filter(keep, front), Filter(Not(keep), front), x);
    }
  }

  lemma {:induction false} FilterThree<T(!new)>(keep: T -> bool, x: seq<T>, y: seq<T>, z: seq<T>)
    ensures Filter(keep, x + y + z) == Filter(keep, x) + Filter(keep, y) + Filter(keep, z)
  {
    FilterAppend(keep, x + y, z);
    FilterAppend(keep, x, y);
  }

  lemma {:induction false} FilterFirst<T(!new)>(keep: T -> bool, x: seq<T>, y: seq<T>, z: seq<T>)
    requires (forall e | e in x :: keep(e)) && (forall e | e in y :: !keep(e)) && forall e | e in z :: !keep(e)
    ensures Filter(keep, x + y + z) == x
  {
    FilterThree(keep, x, y, z);
    FilterAll(keep, x);
    FilterNone(keep, y);
    FilterNone(keep, z);
    hide Filter;
  }

  lemma {:induction false} FilterMiddle<T(!new)>(keep: T -> bool, x: seq<T>, y: seq<T>, z: seq<T>)
    requires (forall e | e in x :: !keep(e)) && (forall e | e in y :: keep(e)) && forall e | e in z :: !keep(e)
    ensures Filter(keep, x + y + z) == y
  {
    FilterThree(keep, x, y, z);
    FilterNone(keep, x);
    FilterAll(keep, y);
    FilterNone(keep, z);
    hide Filter;
  }
}
