/** Keyed amounts and their totals per key: `GROUP BY` with `SUM`, and Go's `m[k] += v`. */
module Grouping {
  import opened Numbers
  import opened Sorting
  import opened Filtering

  datatype Item<K> = Item(key: K, value: int)

  /** Sum of the values filed under `k`. */
  function Total<K(==)>(items: seq<Item<K>>, k: K): int {
    if items == [] then 0
    else Total(items[..|items| - 1], k) + if items[|items| - 1].key == k then items[|items| - 1].value else 0
  }

  function Amounts<K>(items: seq<Item<K>>): (r: seq<int>)
    ensures |r| == |items|
  {
    Map((i: Item<K>) => i.value, items)
  }

  /** The totals of the listed keys, in order. */
  function Totals<K(==)>(items: seq<Item<K>>, keys: seq<K>): (r: seq<int>)
    ensures |r| == |keys|
  {
    seq(|keys|, i requires 0 <= i < |keys| => Total(items, keys[i]))
  }

  ghost predicate NoRepeats<K>(keys: seq<K>) {
    forall i, j | 0 <= i < j < |keys| :: keys[i] != keys[j]
  }

  ghost predicate Covers<K>(keys: seq<K>, items: seq<Item<K>>) {
    forall i | 0 <= i < |items| :: items[i].key in keys
  }

  /** The keys, once each. */
  function Keys<K(==,!new)>(items: seq<Item<K>>): (r: seq<K>)
    ensures NoRepeats(r) && Covers(r, items)
  {
    if items == [] then []
    else
      var front, last := items[..|items| - 1], items[|items| - 1];
      assert forall i | 0 <= i < |items| :: items[i] == if i < |front| then front[i] else last;
      if last.key in Keys(front) then Keys(front) else Keys(front) + [last.key]
  }

  lemma {:induction false} TotalSnoc<K>(items: seq<Item<K>>, x: Item<K>, k: K)
    ensures Total(items + [x], k) == Total(items, k) + if x.key == k then x.value else 0
  {
    assert (items + [x])[..|items|] == items;
  }

  lemma {:induction false} TotalAppend<K>(s: seq<Item<K>>, t: seq<Item<K>>, k: K)
    ensures Total(s + t, k) == Total(s, k) + Total(t, k)
  {
    if t == [] {
      assert s + t == s;
    } else {
      var n := |t| - 1;
      assert s + t == (s + t[..n]) + [t[n]];
      TotalSnoc(s + t[..n], t[n], k);
      TotalAppend(s, t[..n], k);
    }
  }

  lemma {:induction false} TotalAbsent<K>(items: seq<Item<K>>, k: K)
    requires forall i | 0 <= i < |items| :: items[i].key != k
    ensures Total(items, k) == 0
  {
    if items != [] {
      TotalAbsent(items[..|items| - 1], k);
    }
  }

  lemma {:induction false} TotalNonNegative<K>(items: seq<Item<K>>, k: K)
    requires forall i | 0 <= i < |items| :: items[i].value >= 0
    ensures 0 <= Total(items, k) <= Sum(Amounts(items))
  {
    if items != [] {
      var n := |items| - 1;
      TotalNonNegative(items[..n], k);
      assert Amounts(items)[..n] == Amounts(items[..n]);
      assert items[n].value >= 0;
    }
  }

  /** Grouping conserves: the totals of all keys sum to the sum of all values. */
  lemma {:induction false} GroupsSum<K(!new)>(items: seq<Item<K>>, keys: seq<K>)
    requires NoRepeats(keys) && Covers(keys, items)
    ensures Sum(Totals(items, keys)) == Sum(Amounts(items))
  {
    if items == [] {
      ZeroTotals(keys);
    } else {
      var n := |items| - 1;
      var front, last := items[..n], items[n];
      GroupsSum(front, keys);
      assert Amounts(items)[..n] == Amounts(front);
      assert last.key in keys;
      var j :| 0 <= j < |keys| && keys[j] == last.key;
      var before, after := Totals(front, keys), Totals(items, keys);
      assert after == before[j := before[j] + last.value];
      SumUpdate(before, j, before[j] + last.value);
    }
  }

  /** The keys of the items that `keys` leaves out. */
  function Others<K(==,!new)>(items: seq<Item<K>>, keys: seq<K>): (r: seq<K>)
    requires NoRepeats(keys)
    ensures NoRepeats(keys + r) && Covers(keys + r, items)
    ensures forall i | 0 <= i < |r| :: r[i] !in keys
  {
    var missing := (k: K) => k !in keys;
    var r := Filter(missing, Keys(items));
    FilterMembers(missing, Keys(items));
    FilterDistinct(missing, Keys(items));
    assert forall k :: k in r <==> k in Keys(items) && k !in keys;
    hide Filter;
    forall i | 0 <= i < |r|
      ensures r[i] !in keys
    {
      assert r[i] in r;
    }
    forall i | 0 <= i < |items|
      ensures items[i].key in keys + r
    {
      assert items[i].key in Keys(items);
    }
    r
  }

  /** The same over keys that leave out only totals of zero. */
  lemma {:induction false} SparseSum<K(!new)>(items: seq<Item<K>>, keys: seq<K>)
    requires NoRepeats(keys) && forall k :: k !in keys ==> Total(items, k) == 0
    ensures Sum(Totals(items, keys)) == Sum(Amounts(items))
  {
    hide Total;
    hide Sum;
    hide Others;
    hide Covers;
    var extra := Others(items, keys);
    GroupsSum(items, keys + extra);
    assert Totals(items, keys + extra) == Totals(items, keys) + Totals(items, extra);
    SumAppend(Totals(items, keys), Totals(items, extra));
    SumZero(Totals(items, extra));
  }

  lemma {:induction false} FilterDistinct<K(!new)>(keep: K -> bool, s: seq<K>)
    requires NoRepeats(s)
    ensures NoRepeats(Filter(keep, s))
  {
    if s != [] {
      FilterDistinct(keep, s[..|s| - 1]);
      FilterMembers(keep, s[..|s| - 1]);
    }
  }

  lemma {:induction false} TotalAtLeast<K(!new)>(items: seq<Item<K>>, i: nat)
    requires i < |items| && forall j | 0 <= j < |items| :: items[j].value >= 0
    ensures items[i].value <= Total(items, items[i].key)
  {
    var n := |items| - 1;
    TotalNonNegative(items[..n], items[i].key);
    if i < n {
      TotalAtLeast(items[..n], i);
    }
  }

  lemma {:induction false} ZeroTotals<K(!new)>(keys: seq<K>)
    ensures Sum(Totals<K>([], keys)) == 0
  {
    if keys != [] {
      ZeroTotals(keys[..|keys| - 1]);
      assert Totals<K>([], keys)[..|keys| - 1] == Totals<K>([], keys[..|keys| - 1]);
    }
  }

  lemma {:induction false} SumUpdate(s: seq<int>, j: nat, x: int)
    requires j < |s|
    ensures Sum(s[j := x]) == Sum(s) - s[j] + x
  {
    var n := |s| - 1;
    if j == n {
      assert s[j := x][..n] == s[..n];
    } else {
      SumUpdate(s[..n], j, x);
      assert s[j := x][..n] == s[..n][j := x];
    }
  }

  lemma {:induction false} TotalWithout<K(!new)>(s: seq<Item<K>>, j: nat, k: K)
    requires j < |s|
    ensures Total(s, k) == Total(s[..j] + s[j + 1..], k) + if s[j].key == k then s[j].value else 0
  {
    SplitAt(s, j);
    TotalAppend(s[..j], s[j + 1..], k);
    TotalAppend(s[..j] + [s[j]], s[j + 1..], k);
    TotalSnoc(s[..j], s[j], k);
  }

  /** A key's total does not depend on the order of the items. */
  lemma {:induction false} TotalMultiset<K(!new)>(s: seq<Item<K>>, t: seq<Item<K>>, k: K)
    requires multiset(s) == multiset(t)
    ensures Total(s, k) == Total(t, k)
    decreases |s|
  {
    if s == [] {
      MembersAgree(s, t);
    } else {
      hide Total;
      var j := SameWithout(s, t);
      TotalMultiset(s[1..], t[..j] + t[j + 1..], k);
      TotalWithout(s, 0, k);
      TotalWithout(t, j, k);
    }
  }

  // ----- keys and values in parallel

  function RowItems(keys: seq<int>, values: seq<int>): (r: seq<Item<int>>)
    requires |keys| == |values|
    ensures |r| == |keys|
  {
    seq(|keys|, i requires 0 <= i < |keys| => Item(keys[i], values[i]))
  }

  lemma {:induction false} RowsAdd(keys: seq<int>, x: seq<int>, y: seq<int>, z: seq<int>, k: int)
    requires |keys| == |x| == |y| == |z| && forall i | 0 <= i < |x| :: x[i] == y[i] + z[i]
    ensures Total(RowItems(keys, x), k) == Total(RowItems(keys, y), k) + Total(RowItems(keys, z), k)
  {
    if keys != [] {
      var n := |keys| - 1;
      RowsAdd(keys[..n], x[..n], y[..n], z[..n], k);
      RowsStep(keys, x, k);
      RowsStep(keys, y, k);
      RowsStep(keys, z, k);
    }
  }

  lemma {:induction false} RowsStep(keys: seq<int>, x: seq<int>, k: int)
    requires |keys| == |x| > 0
    ensures var n := |keys| - 1;
            Total(RowItems(keys, x), k) == Total(RowItems(keys[..n], x[..n]), k) + if keys[n] == k then x[n] else 0
  {
    var n := |keys| - 1;
    assert RowItems(keys, x)[..n] == RowItems(keys[..n], x[..n]);
  }

  lemma {:induction false} OnesTotal(items: seq<Item<int>>, keys: seq<int>, k: int)
    requires |items| == |keys| && forall i | 0 <= i < |keys| :: items[i] == Item(keys[i], 1)
    ensures Total(items, k) == multiset(keys)[k]
  {
    if keys != [] {
      var n := |keys| - 1;
      OnesTotal(items[..n], keys[..n], k);
      assert keys == keys[..n] + [keys[n]];
    }
  }

  lemma {:induction false} ZerosTotal<K(!new)>(items: seq<Item<K>>, k: K)
    requires forall i | 0 <= i < |items| :: items[i].value == 0
    ensures Total(items, k) == 0
  {
    if items != [] { ZerosTotal(items[..|items| - 1], k); }
  }
}
