/** Keyset pagination over a fixed table: filtered, ordered, limited queries. */
module Paging {
  import opened Sorting

  function Filter<T(!new)>(keep: T -> bool, s: seq<T>): (r: seq<T>)
    ensures |r| <= |s|
    ensures forall x :: x in r <==> x in s && keep(x)
  {
    if s == [] then []
    else
      assert s == s[..|s| - 1] + [s[|s| - 1]];
      Filter(keep, s[..|s| - 1]) + if keep(s[|s| - 1]) then [s[|s| - 1]] else []
  }

  /** SELECT .. WHERE keep ORDER BY less */
  function Query<T(!new)>(rows: seq<T>, keep: T -> bool, less: (T, T) -> bool): (r: seq<T>)
    ensures |r| <= |rows|
  {
    SortBy(Filter(keep, rows), less)
  }

  /** LIMIT */
  function Take<T>(s: seq<T>, n: nat): (r: seq<T>)
    ensures |r| == if |s| < n then |s| else n
  {
    if |s| < n then s else s[..n]
  }

  ghost predicate Distinct<T(!new)>(s: seq<T>) {
    forall i, j | 0 <= i < j < |s| :: s[i] != s[j]
  }

  lemma {:induction false} FilterCount<T(!new)>(keep: T -> bool, s: seq<T>, x: T)
    ensures multiset(Filter(keep, s))[x] == if keep(x) then multiset(s)[x] else 0
  {
    if s != [] {
      var init, last := s[..|s| - 1], s[|s| - 1];
      FilterCount(keep, init, x);
      assert s == init + [last];
      assert multiset(s) == multiset(init) + multiset{last};
      assert multiset(Filter(keep, s)) == multiset(Filter(keep, init)) + if keep(last) then multiset{last} else multiset{};
    }
  }

  lemma {:induction false} FilterTwice<T(!new)>(p: T -> bool, q: T -> bool, both: T -> bool, s: seq<T>, t: seq<T>)
    requires forall x :: both(x) <==> p(x) && q(x)
    requires multiset(t) == multiset(Filter(p, s))
    ensures multiset(Filter(both, s)) == multiset(Filter(q, t))
  {
    forall x
      ensures multiset(Filter(both, s))[x] == multiset(Filter(q, t))[x]
    {
      FilterCount(both, s, x);
      FilterCount(q, t, x);
      FilterCount(p, s, x);
    }
  }

  lemma {:induction false} FilterAfter<T(!new)>(q: T -> bool, s: seq<T>, k: nat)
    requires k <= |s|
    requires forall i | 0 <= i < |s| :: q(s[i]) <==> i >= k
    ensures Filter(q, s) == s[k..]
    decreases |s|
  {
    if s != [] {
      var init := s[..|s| - 1];
      if k < |s| {
        FilterAfter(q, init, k);
        assert s[k..] == init[k..] + [s[|s| - 1]];
      } else {
        FilterAfter(q, init, |init|);
      }
    }
  }

  /** What follows the k-th row of an ordered query is the query for the rows beyond that row. */
  lemma QueryBeyond<T(!new)>(rows: seq<T>, keep: T -> bool, beyond: T -> bool, less: (T, T) -> bool, k: nat)
    requires StrictWeakOrder(rows, less) && NeverTies(rows, less) && Distinct(rows)
    requires var all := Query(rows, keep, less);
             k < |all| && forall x :: beyond(x) <==> keep(x) && less(all[k], x)
    ensures Query(rows, beyond, less) == Query(rows, keep, less)[k + 1..]
  {
    var all := Query(rows, keep, less);
    var kept := Filter(keep, rows);
    QueryOrdered(rows, keep, less);
    var q := x => less(all[k], x);
    MembersAgree(all, kept);
    AfterInOrder(rows, all, less, k);
    hide Query;
    hide Distinct;
    hide StrictWeakOrder;
    FilterAfter(q, all, k + 1);
    FilterTwice(keep, q, beyond, rows, all);
    QueryOrdered(rows, beyond, less);
    var rest := Query(rows, beyond, less);
    MembersAgree(rest, Filter(beyond, rows));
    SortedUnique(rest, all[k + 1..], less);
  }

  /** In a strictly ordered listing the rows after the k-th are those the order puts after it. */
  lemma AfterInOrder<T(!new)>(rows: seq<T>, all: seq<T>, less: (T, T) -> bool, k: nat)
    requires StrictWeakOrder(rows, less) && NeverTies(rows, less) && k < |all|
    requires Sorted(all, less) && Distinct(all) && forall x | x in all :: x in rows
    ensures forall i | 0 <= i < |all| :: less(all[k], all[i]) <==> i >= k + 1
  {
    forall i | 0 <= i < |all|
      ensures less(all[k], all[i]) <==> i >= k + 1
    {
      assert all[i] in rows && all[k] in rows;
    }
  }

  lemma QueryOrdered<T(!new)>(rows: seq<T>, keep: T -> bool, less: (T, T) -> bool)
    requires StrictWeakOrder(rows, less) && Distinct(rows)
    ensures Sorted(Query(rows, keep, less), less) && Distinct(Query(rows, keep, less))
    ensures forall x :: x in Query(rows, keep, less) <==> x in rows && keep(x)
  {
    SortBySorted(Filter(keep, rows), less);
    MembersAgree(Query(rows, keep, less), Filter(keep, rows));
    FilterDistinct(keep, rows);
    PermutationKeepsDistinct(Filter(keep, rows), Query(rows, keep, less));
  }

  lemma {:induction false} FilterDistinct<T(!new)>(keep: T -> bool, s: seq<T>)
    requires Distinct(s)
    ensures Distinct(Filter(keep, s))
  {
    if s != [] {
      FilterDistinct(keep, s[..|s| - 1]);
    }
  }
}
